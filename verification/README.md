# EchoVault relay and client core, modelled in Dafny

EchoVault is an end-to-end encrypted chat. A Cloudflare Durable Object, the
`ChatRoom`, relays opaque envelopes between the members of one room. Browser
clients encrypt, sign and nonce every message and reassemble files from
chunks. This project models the parts of both that decide who may join, what
gets relayed, what is accepted as fresh, and when a transfer or a reconnect
succeeds. It proves properties about each of them.

Modules, one file each:

- `Common`: `Option`, bytes, connection ids, `GetOr`, `Abs`, `Min`, `Pow2`.
- `Encoding`: lower-case hex rendering (`toString(16).padStart(2, '0')`) and
  its inverse; decimal rendering of integers (`${n}`) and its inverse.
- `Chunking`: `chunkArray` and its inverse, the one-level `flat` of the
  reassembled chunks.
- `Validation`: `validateNickname` (with JavaScript's UTF-16 `length`) and
  `validateUUID`.
- `FileSlot`: the single file-sender slot.
- `RateLimit`: the two sliding one-second windows (15 messages, 20 chunks) and
  their periodic cleanup.
- `Room`: the connection map (a JavaScript `Map`, so an insertion-ordered
  sequence), per-address counts, admission gates, the duplicate-identity
  rule, the close and error handlers, `broadcast`, the heartbeat sweep and the
  idle teardown.
- `Relay`: the per-frame `message` listener of `handleSession`. It covers the
  100 KB size gate with its three strikes, the parse step, the message rate
  limit with its exemptions, and every frame type. A `Fanout` argument picks
  how failed recipients are removed: `AsWritten` (count kept, as in the code)
  or `Corrected` (count released).
- `Nonces`: the client's replay registry and the one of `SecurityHelper`
  (src/utils/security.js, a helper the relay never imports), and runs of
  deliveries and purges over them.
- `SecurityFormat`: the nonce value `"<timestamp>-<32 hex>"`, the key
  fingerprint, and the session token.
- `Session`: the client's chat-message path and its outgoing duplicate
  suppression.
- `Reassembly`: the client's `handleFileChunk` together with the stall timer,
  sender departure, cancellation and socket close.
- `Reconnect`: `connect`, `disconnect`, the `close` event and
  `attemptReconnect` with its backoff.

Cryptographic primitives are function-valued fields of a `Crypto` datatype:
decryption, signature verification and hashing. Clocks, random bytes and
socket send failures are parameters. Timers are separate transitions.

## Model

| member | source | states |
|---|---|---|
| Chunking.Chunks | public/chat.js:468-474 | every chunk is non-empty and at most `n` long, every chunk but the last is exactly `n` long, and there are no chunks only for the empty array |
| Chunking.ChunkArray | public/chat.js:468-474 | the loop yields exactly `Chunks(a, n)` and the chunks concatenate back to `a` |
| Chunking.ConcatChunks | public/chat.js:468-474 | flattening the chunks of an array gives back the array (the receiver's `flat` undoes the sender's `chunkArray`) |
| Chunking.ChunksExact | public/chat.js:468-474 | an array of `k·n` elements splits into exactly `k` chunks of `n` |
| Encoding.HexByte | src/utils/security.js:15 | a byte renders as two lower-case hex digits whose values are the high and low nibble |
| Encoding.Hex | src/utils/security.js:257 | the rendering is twice as long as the bytes and all lower-case hex |
| Encoding.UnhexHex | src/utils/security.js:257 | parsing the hex rendering gives back the bytes |
| Encoding.UnhexIgnoresCase | src/utils/security.js:258 | upper-casing hex text does not change the bytes it denotes |
| Encoding.IntText | public/chat.js:486 | `${t}` is a leading `-` exactly for negatives, followed by digits only |
| Encoding.ParseIntOfIntText | public/chat.js:486 | the decimal rendering of an integer parses back to the same integer |
| Validation.ValidateNickname | src/ChatRoom.js:117-132 | valid iff 1 to 50 characters, all letters, digits, `_` or CJK U+4E00–U+9FA5; empty is reported first; too long exactly when it is non-empty and the UTF-16 length exceeds 50, whatever its characters; bad characters exactly when it is non-empty, within 50 UTF-16 units and holds a character outside the class |
| Validation.AllowedLengthIsCharCount | src/ChatRoom.js:122-128 | for allowed characters the UTF-16 length equals the character count |
| Validation.ValidateUuid | src/ChatRoom.js:134-137 | accepted iff 36 characters, dashes at 8, 13, 18 and 23, and hex digits of either case everywhere else |
| Validation.UuidGroupsMatchLayout | src/ChatRoom.js:135 | the group-by-group reading of the pattern agrees with the position-wise layout |
| Validation.UuidAcceptsEveryRendering | public/chat.js:15-35 | every 16-byte id rendered in 8-4-4-4-12 hex passes `validateUUID` |
| FileSlot.Request | src/ChatRoom.js:140-161 | a current sender is granted again without change; otherwise granted iff the slot is free; a refusal leaves the set alone and reports the active count and the maximum; the set never exceeds one |
| FileSlot.Release | src/ChatRoom.js:163-168 | the sender leaves the set, nothing else changes, and releasing a non-sender is a no-op |
| FileSlot.SingleSender | src/ChatRoom.js:25-26 | at most one connection holds the slot |
| RateLimit.Recent | src/ChatRoom.js:83 | keeps exactly the timestamps less than one second old |
| RateLimit.RecentTwice | src/ChatRoom.js:55-77 | filtering at an earlier time and then at `now` equals filtering at `now`, so the periodic cleanup never changes a later verdict |
| RateLimit.Check | src/ChatRoom.js:79-114 | allowed iff fewer than `limit` recent timestamps; a refusal changes nothing; an acceptance records `now` for that id only and keeps at most `limit` recent entries |
| RateLimit.CheckMatchesHistory | src/ChatRoom.js:79-94 | the stored list tracks the true history: the verdict equals "fewer than `limit` accepted sends in the last second", and the relation is preserved |
| RateLimit.AcceptedWindowBounded | src/ChatRoom.js:87-93 | after an acceptance no one-second window holds more than `limit` accepted sends |
| RateLimit.Cleanup | src/ChatRoom.js:55-77 | an id is kept iff it has a recent timestamp, and its list becomes exactly the recent ones |
| RateLimit.CleanupKeepsFaithful | src/ChatRoom.js:55-77 | cleanup keeps the stored lists faithful to the true history |
| Nonces.Fresh | src/utils/security.js:19-36 | accepted iff the timestamp is within 5 s of the clock in either direction and the value is not registered |
| Nonces.Purge | src/utils/security.js:38-47 | an entry is kept iff it is at most the purge age old, with its timestamp unchanged |
| Nonces.Register | public/chat.js:1653 | the value is recorded with its timestamp and nothing else changes |
| Nonces.ReplayRejectedWhileRegistered | public/chat.js:1647-1654 | once an accepted nonce is registered, it is rejected at any later clock |
| Nonces.PurgeIdempotent | src/utils/security.js:38-47 | purging twice at the same clock equals purging once |
| Nonces.ClientVerify | public/chat.js:490-507 | the client reads `Date.now() + serverTimeOffset` and applies the 5 s window and the registry check |
| Nonces.ClientCleanupAsWritten | public/chat.js:509-518 | the client's purge reads the uncorrected `Date.now()` and drops entries more than 5 s old by that clock; kept entries keep their timestamps |
| Nonces.ClientCleanup | public/chat.js:509-518 | the purge on the same offset-corrected clock as verification |
| Nonces.HelperVerify | src/utils/security.js:19-36 | `SecurityHelper`'s rule on its own clock: accepted iff within 5 s and not registered |
| Nonces.HelperCleanup | src/utils/security.js:38-47 | `SecurityHelper` drops exactly the entries more than 10 s old |
| Nonces.Step | public/chat.js:1647-1654 | a delivery is accepted and registered iff fresh at the verifier's clock; a purge accepts nothing |
| Nonces.AtMostOnce | src/utils/security.js:19-47 | with verifier and purger on the same clock and a purge age of at least the window, no nonce is accepted twice in any run with a monotone clock |
| Nonces.HelperAtMostOnce | src/utils/security.js:19-47 | a `SecurityHelper` registry accepts every nonce at most once |
| Nonces.ClientAtMostOnce | public/chat.js:490-518 | with the corrected purge, the client's registry accepts every nonce at most once |
| Nonces.ClientReplayAsWritten | public/chat.js:490-518 | with offset −3 s, the same nonce is accepted at local 3000 and again at 6001 after the purge at 6001 |
| SecurityFormat.NonceValue | public/chat.js:486 | the value is the decimal timestamp, a dash, then two lower-case hex digits per random byte |
| SecurityFormat.GenerateNonce | public/chat.js:480-488 | the timestamp is the offset-corrected clock, the value is the timestamp's length plus 33 characters long, and it parses back to the timestamp and the random bytes |
| SecurityFormat.NonceValueRoundTrip | src/utils/security.js:9-17 | splitting a nonce value at its last dash recovers the timestamp and the random bytes |
| SecurityFormat.Fingerprint | src/utils/security.js:251-259 | an empty digest has no fingerprint (the regex match is `null`); every other digest has one |
| SecurityFormat.FingerprintRoundTrip | src/utils/security.js:251-259 | removing the spaces from a fingerprint and parsing its hex recovers the digest |
| SecurityFormat.Sha256FingerprintLayout | src/utils/security.js:251-259 | a SHA-256 fingerprint is 79 characters: sixteen groups of four upper-case hex digits separated by single spaces |
| SecurityFormat.NewSessionToken | src/utils/security.js:265-273 | the token is 64 lower-case hex characters that decode to the random bytes, stamped with the creation time |
| SecurityFormat.VerifySessionToken | src/utils/security.js:275-281 | a missing token or a missing or zero `created` is rejected; otherwise valid iff its age is at most `maxAge` |
| SecurityFormat.TokenValidForOneHour | src/utils/security.js:275-281 | with the default, a fresh token is valid exactly up to one hour after creation and never again afterwards |
| Room.NewRoom | src/ChatRoom.js:10-33 | a fresh room satisfies every room invariant |
| Room.ReleaseIp | src/ChatRoom.js:577-582 | a positive count drops by one (deleted at one), other addresses are untouched, and positivity is kept |
| Room.AcquireIp | src/ChatRoom.js:212 | the admitted address's count rises by one, others are untouched, and positivity is kept |
| Room.Gate | src/ChatRoom.js:199-258 | the first failing gate names the error: room full at 30, then 5 from this address, then the nickname; a malformed device id is reported only when those pass, and a malformed session id only when the device id is absent or well formed too; `None` iff all pass |
| Room.Decide | src/ChatRoom.js:263-307 | same device and session kicks as `reconnection`; same device, other session rejects the newcomer; any other device kicks as `new_device_login`; a missing id never counts as "same" |
| Room.Resolve | src/ChatRoom.js:262-309 | the scan kicks only same-nickname connections it decided to kick, splits the address counts between kept and kicked, and without a conflict removes exactly the same-nickname entries in map order |
| Room.ConflictLeavesMapUntouched | src/ChatRoom.js:283-292 | with unique nicknames a rejecting scan kicked nobody |
| Room.ConflictHasWitness | src/ChatRoom.js:283-292 | a rejection is caused by an existing same-nickname connection whose device matches and session does not |
| Room.JoinAsWritten | src/ChatRoom.js:187-336 | the error sent is the first failing gate's, else NICKNAME_IN_USE exactly when the scan meets a conflict, which keeps the kicks made before it with counts untouched; other gate failures change nothing; admitted iff the gates pass and no conflict; an admission appends the newcomer after the kept entries and raises the newcomer's address by one, but leaves the kicked connections' addresses counted |
| Room.Join | src/ChatRoom.js:187-336 | the error sent is the first failing gate's, else NICKNAME_IN_USE exactly when the scan meets a conflict; a refused join changes nothing; a join is admitted iff the gates pass and the scan finds no conflict; it then kicks exactly the same-nickname entries, appends the newcomer, leaves its nickname once in the room and disarms the idle timer |
| Room.JoinKeepsInv | src/ChatRoom.js:187-336 | the corrected join keeps distinct ids, unique nicknames, exact per-address counts, the 30-connection cap and the 5-per-address cap |
| Room.JoinAsWrittenKeepsInv | src/ChatRoom.js:187-336 | even with leaked counts, a join as written never lets an address exceed 5 connections or the room 30, and keeps ids distinct and nicknames unique |
| Room.KickLeaksIpCount | src/ChatRoom.js:282 | whenever a join as written kicks someone, the kicked connection's address is counted higher than its live connections |
| Room.KickReasons | src/ChatRoom.js:272-305 | a kicked connection is told `reconnection` iff the newcomer's device id and session id are both present and equal to its own, and `new_device_login` otherwise |
| Room.KickedAreToldWhy | src/ChatRoom.js:262-307 | every connection an admitted join kicks held the joining nickname, and is told `new_device_login` exactly when the newcomer's device id is missing or differs from its own |
| Room.KeysForNewcomer | src/ChatRoom.js:346-356 | the newcomer is sent the key of every other connection that has published one |
| Room.CheckIdle | src/ChatRoom.js:676-697 | the idle timer ends up armed iff it was armed or the room is empty; nothing else changes |
| Room.OnClose | src/ChatRoom.js:571-599 | the connection and its file slot are gone, every other entry stays, and the rate-limit lists are left for the periodic cleanup |
| Room.OnCloseKeepsInv | src/ChatRoom.js:571-599 | the close handler keeps every room invariant |
| Room.OnCloseKeepsInvAsWritten | src/ChatRoom.js:571-599 | the close handler keeps `InvAsWritten` as well |
| Room.OnErrorAsWritten | src/ChatRoom.js:602-609 | the error handler deletes the entry but leaves the address count as it was |
| Room.ErrorLeaksIpCount | src/ChatRoom.js:602-609 | after the error handler as written, the close handler finds no entry and the address stays counted with no connection |
| Room.OnError | src/ChatRoom.js:602-609 | the corrected error handler removes the entry and its slot and releases the address like `close` |
| Room.OnErrorKeepsInv | src/ChatRoom.js:602-609 | the corrected error handler keeps every room invariant |
| Room.OnErrorAsWrittenKeepsInv | src/ChatRoom.js:602-609 | the error handler as written keeps `InvAsWritten` |
| Room.BroadcastAsWritten | src/ChatRoom.js:612-624 | recipients whose send fails are deleted, and no address count is released |
| Room.SendFailureLeaksIpCount | src/ChatRoom.js:620 | one failed send leaves an address counted with no connection |
| Room.Broadcast | src/ChatRoom.js:612-624 | delivery goes to exactly the non-excluded connections whose send succeeded; exactly the failed recipients are removed; only the map and the counts change |
| Room.BroadcastKeepsInv | src/ChatRoom.js:612-624 | the corrected broadcast keeps every room invariant |
| Room.BroadcastAsWrittenKeepsInv | src/ChatRoom.js:612-624 | the broadcast as written keeps `InvAsWritten`: every address count covers at least its live connections, and the caps hold |
| Room.TimedOut | src/ChatRoom.js:642-650 | the two timeout tiers collapse: a connection is stale iff silent for more than 90 s |
| Room.Sweep | src/ChatRoom.js:632-674 | while the heartbeat runs, a connection survives iff silent for at most 90 s; file slots are not touched |
| Room.SweepKeepsInv | src/ChatRoom.js:632-674 | the sweep keeps every room invariant |
| Room.SweepKeepsInvAsWritten | src/ChatRoom.js:632-674 | the sweep keeps `InvAsWritten` as well |
| Room.CheckIdleKeepsInv | src/ChatRoom.js:676-697 | arming the idle timer keeps every room invariant |
| Room.ReleaseAllCounts | src/ChatRoom.js:657-667 | releasing the removed connections lowers each address by exactly the number removed from it |
| Room.IdleTimerFires | src/ChatRoom.js:681-694 | teardown clears the connections, message rate lists, address counts and slots and stops the heartbeat; the chunk rate lists stay |
| Relay.Update | src/ChatRoom.js:398-414 | patching one connection changes only that entry (nickname and address kept) and preserves ids, address counts, nickname counts and their uniqueness |
| Relay.UpdateKeepsInv | src/ChatRoom.js:398-414 | a heartbeat or key update keeps every room invariant |
| Relay.SkewTooLarge | src/ChatRoom.js:429-434 | a present timestamp is refused iff the server clock lies more than 60 s before or after it; a missing one counts as 0 |
| Relay.RelayKeys | src/ChatRoom.js:405-423 | the sender's keys are stored (the ECDH key only when present) and sent to every other connection whose send succeeds; failed recipients are removed by the chosen variant of `broadcast` |
| Relay.RelayChat | src/ChatRoom.js:425-476 | rejected with CLOCK_SKEW iff the skew exceeds 60 s, changing nothing; otherwise relayed to every connection, sender included, stamped with the server time, failed recipients removed by the chosen variant |
| Relay.RelayCancel | src/ChatRoom.js:497-509 | the slot is released, then the cancellation is relayed to every connection, failed recipients removed by the chosen variant |
| Relay.RelayChunk | src/ChatRoom.js:511-560 | rejected iff over 20 chunks per second, changing nothing; otherwise charged and the heartbeat refreshed, then dropped iff over 512 KB or a declared total over 1000, else relayed to everyone |
| Relay.Dispatch | src/ChatRoom.js:395-564 | each frame type gets its own handler: ping refreshes the heartbeat and answers pong; slot requests and completions touch only the slot; unknown types change nothing; the message rate lists and size violations never change |
| Relay.Admit | src/ChatRoom.js:383-393 | ping and chunk frames skip the message limiter; every other frame is refused with RATE_LIMIT_EXCEEDED iff the limiter refuses, and the limiter's store is kept either way |
| Relay.Handle | src/ChatRoom.js:360-393 | an oversized frame only bumps the sender's violation count and gets close code 1008 iff the count reaches 3; an unparseable frame changes nothing; any other frame goes through the limiter |
| Relay.HandleKeepsInv | src/ChatRoom.js:360-564 | with the corrected removal every frame keeps every room invariant, exact address counts included; as written every frame keeps `Room.InvAsWritten` |
| Relay.DispatchKeepsInv | src/ChatRoom.js:395-564 | every frame type's handler keeps `Inv` when corrected and `InvAsWritten` as written |
| Relay.KeysKeepInv | src/ChatRoom.js:405-423 | key relay keeps `Inv` when corrected and `InvAsWritten` as written |
| Relay.CancelKeepsInv | src/ChatRoom.js:497-509 | cancellation relay keeps `Inv` when corrected and `InvAsWritten` as written |
| Relay.ChunkKeepsInv | src/ChatRoom.js:511-560 | chunk relay keeps `Inv` when corrected and `InvAsWritten` as written |
| Relay.ChatSendFailureLeaksIpCount | src/ChatRoom.js:471-474 | as written, a relayed chat message whose send to a connection fails leaves that connection's address counted above its live connections |
| Relay.PingKeepsAlive | src/ChatRoom.js:396-403 | a connection that pings survives every heartbeat sweep for the next 90 s |
| Relay.ThirdOversizeFrameCloses | src/ChatRoom.js:362-378 | three oversized frames give violation counts 1, 2 and 3, and only the third carries close code 1008 |
| Reassembly.Write | public/chat.js:1829 | writing past the end grows the sparse array with holes; only the written slot changes |
| Reassembly.Missing | public/chat.js:1846-1852 | lists exactly the empty indices below the total, in increasing order |
| Reassembly.NewEntry | public/chat.js:1765-1806 | a new buffer has `totalChunks` empty slots and zero counters |
| Reassembly.Admit | public/chat.js:1759-1816 | the first chunk of a file creates its buffer (arming the stall timer iff it carries metadata); a later chunk only attaches missing metadata; a failing metadata decryption throws |
| Reassembly.Complete | public/chat.js:1840-1953 | delivered only if no index is missing, metadata exists, decryption of the flattened chunks succeeds and any declared hash matches; each outcome holds exactly when its cause does: a gap, missing metadata, a failed decryption (the only outcome that keeps the buffer), a hash mismatch, and delivery when every check passes; every outcome but a decryption failure drops the buffer |
| Reassembly.Place | public/chat.js:1818-1840 | a filled slot only counts a duplicate; otherwise the chunk is stored and counted, and completion is attempted at the declared total |
| Reassembly.HandleChunk | public/chat.js:1741-1954 | own chunks are ignored; other files are untouched; a duplicate changes neither slots nor count; a stored chunk is written and counted once |
| Reassembly.ChunkKeepsCounted | public/chat.js:1818-1831 | with non-null payloads the received counter equals the number of filled slots |
| Reassembly.CompletionFindsNoGap | public/chat.js:1840-1854 | when the counter is faithful and reaches the total, the gap check finds nothing |
| Reassembly.NullPayloadCountedTwice | public/chat.js:1821-1830 | a chunk with a null payload is counted but leaves its slot empty, so its resend is counted again and the transfer ends with a gap |
| Reassembly.InOrderTransferDelivers | public/chat.js:1741-1953 | a file sent as `chunkArray` chunks in order, first chunk carrying metadata, is delivered with its content and leaves no buffer behind |
| Reassembly.InOrderPartsDeliver | public/chat.js:1741-1953 | the same for any in-order sequence of non-empty parts |
| Reassembly.StallTimerFires | public/chat.js:1779-1794 | two minutes after the first chunk the buffer is dropped iff it is still short of its total |
| Reassembly.SenderLeft | public/chat.js:1596-1611 | the sender's departure drops exactly its buffers |
| Reassembly.Cancelled | public/chat.js:1721-1737 | a cancellation drops that file's buffer only; every other buffer is kept with its contents |
| Reassembly.SocketClosed | public/chat.js:1416-1423 | a socket close drops every buffer |
| Reconnect.Backoff | public/chat.js:2406-2414 | no retry after 15 attempts; otherwise 1000·2^attempts ms, capped at 30 s |
| Reconnect.BackoffSchedule | public/chat.js:2406-2414 | the delays are 1, 2, 4, 8 and 16 s, then 30 s, and nothing from attempt 15 on |
| Reconnect.Disconnect | public/chat.js:2423-2453 | reconnection off, the counter reset, the socket dropped |
| Reconnect.ConnectAsWritten | public/chat.js:1352-1360 | a still-referenced socket resets the counter through `disconnect` |
| Reconnect.Connect | public/chat.js:1352-1360 | the corrected connect keeps the counter |
| Reconnect.Opened | public/chat.js:1385-1387 | opening resets the counter and nothing else |
| Reconnect.NicknameInUse | public/chat.js:1518-1521 | the error NICKNAME_IN_USE switches reconnection off |
| Reconnect.Kicked | public/chat.js:1546-1550 | a kick switches reconnection off and drops the socket |
| Reconnect.Closed | public/chat.js:1412-1453 | code 1008 removes the room and never retries; otherwise a retry is scheduled iff reconnection is on and fewer than 15 attempts were made, after `Backoff` |
| Reconnect.FireAsWritten | public/chat.js:2415-2420 | as written, the timer's `connect` resets the counter whenever the old socket is still referenced |
| Reconnect.Fire | public/chat.js:2415-2420 | the corrected timer counts the attempt and reconnects |
| Reconnect.RetriesNeverBackOffAsWritten | public/chat.js:2406-2420 | as written, consecutive failures are retried every second forever |
| Reconnect.RetriesFollowBackoff | public/chat.js:2406-2420 | corrected, the i-th retry waits `Backoff(attempts + i)` and retrying stops after the 15th attempt |
| Reconnect.FullSchedule | public/chat.js:2406-2420 | from a fresh start the corrected client retries after 1, 2, 4, 8 and 16 s, then ten times after 30 s, then gives up |
| Reconnect.NoReconnectAfterRefusal | public/chat.js:1518-1550 | after a kick or a nickname conflict no close event schedules a retry |
| Session.SenderName | public/chat.js:1627-1644 | own or unencrypted names are shown as sent; an encrypted name without a shared secret, or one that fails to decrypt, shows as `[Encrypted]` |
| Session.ReceiveChat | public/chat.js:1615-1692 | a nonce-carrying message is dropped iff the nonce fails the check, leaving the registry alone; otherwise the nonce is registered before the signature check; a signature is rejected only for a signed peer message with a known key; a message past both checks is displayed iff its content decrypts, as the decrypted text |
| Session.ReplayDropped | public/chat.js:1647-1654 | a second message with an already accepted nonce value is dropped |
| Session.ForgeryUsesUpNonce | public/chat.js:1646-1669 | a forged message under a fresh nonce is rejected for its signature but uses up the nonce, so the genuine message is dropped |
| Session.NonceCleanupTick | public/chat.js:1346-1349 | the periodic purge, as written, keeps exactly the entries at most 5 s old by the uncorrected local clock and changes nothing else |
| Session.NonceCleanupTickCorrected | public/chat.js:1346-1349 | the corrected purge keeps exactly the entries at most 5 s old by the offset-corrected clock, with their timestamps, and changes nothing else |
| Session.TickReopensNonceAsWritten | public/chat.js:1346-1349 | as written, with offset −3 s, a message accepted at local 3000 is displayed again at local 6001 after the tick at 6001 |
| Session.CorrectedTickKeepsReplayOut | public/chat.js:1646-1654 | with the corrected tick, a message once past the nonce check is rejected by it at every later clock |
| Session.PeerKeyArrived | public/chat.js:1524-1544 | the sender's signing key is stored, and the shared secret when an ECDH key came along; other peers' keys and secrets and every other field are unchanged |
| Session.PeerLeft | public/chat.js:1595-1598 | the leaver's signing key is forgotten; the other keys, all shared secrets and every other field are unchanged |
| Session.LeftPeerUnchecked | public/chat.js:1657-1673 | after a peer leaves, its signed messages pass the signature stage unchecked |
| Session.CheckSend | public/chat.js:1956-1977 | refused iff the same text as the last accepted one comes less than 5 s after it; a refusal changes nothing; an acceptance becomes the new reference |
| Session.RepeatsMeasuredFromAcceptedSend | public/chat.js:1968-1977 | repeats are measured from the last accepted send: refused repeats do not move the reference, and a repeat at +5 s is accepted |

## Where the code and its comments differ

The model follows the code in each case.

- The comments of the heartbeat sweep (src/ChatRoom.js:644-647) promise a
  60 s timeout to recently active connections and 90 s to long-quiet ones.
  The 60 s tier applies only while the silence is at most 60 s, so it can
  never fire (src/ChatRoom.js:648-650). The only threshold is 90 s of
  silence (`Room.TimedOut`).
- The stall timer's comment speaks of "2 minutes of no activity"
  (public/chat.js:1779). The client arms a single timer, 120 s after the
  first chunk, and only when that chunk carries metadata
  (public/chat.js:1779-1794, `Reassembly.Admit`). Later chunks do not re-arm
  it, and no timer is armed when a later chunk arrives first.
- The nonce check is commented as the replay defence (public/chat.js:1646).
  The nonce is registered at public/chat.js:1653, before the signature check
  at 1657-1669. So a message dropped for its signature has still used up its
  nonce, and a forged message can make the genuine one be dropped as a replay
  (`Session.ForgeryUsesUpNonce`).

## Left out

- Cryptography (AES-GCM, ECDSA, ECDH, PBKDF2, SHA-256): these are opaque function parameters, with no algebraic properties assumed.
- Message content, nicknames of relayed messages and the per-recipient `encryptedNicknames` lookup: the relay forwards them unchanged and the model does not carry them.
- `sanitizeMessage`, the UI, local storage, backups and share links: not part of the relay or reassembly logic.
- Socket sends and closes: these appear only as their effect on state. A send failure is an input set. A policy close is the `closeCode` of `Relay.Outcome`.
- Send failures during the `user_joined` and `user_left` broadcasts of a join or a close: the join and close handlers are modelled without them.
- Timers and the clock: these are explicit transitions and parameters. Concurrency between awaits is not modelled.
- The pong-based server clock offset estimate: the offset is an input.
- The client ping every tenth chunk and the server's log every fiftieth chunk: these have no effect on the modelled state.
- `processedMessages` and its cleanup: the server never writes this map.
- Nonces.Fresh: a nonce timestamp is an integer, so a non-numeric one is not modelled. In JavaScript `Math.abs(now - undefined)` is `NaN`, so such a nonce passes the window (src/utils/security.js:24, public/chat.js:495), and its registry entry is never purged because `now - NaN > maxAge` is false.
- Nonces.ClientVerify: the same non-numeric timestamp gap as `Nonces.Fresh`, on public/chat.js:495.
- Nonces.HelperVerify: the same non-numeric timestamp gap as `Nonces.Fresh`, on src/utils/security.js:24.
- Relay.SkewTooLarge: a timestamp is `Option<int>`, so a non-numeric timestamp, whose `NaN` skew passes the check, is not modelled.
- Reassembly.HandleChunk: chunk indices are natural numbers, so negative or fractional indices, which JavaScript stores as properties, are not modelled. A null payload written at or past the declared total becomes an explicit `null`/`undefined` element of the array (public/chat.js:1829), which `flat` keeps (public/chat.js:1878), while `Reassembly.Flat` drops every empty slot, so the data handed to decryption in that case is not modelled; non-null payloads past the total and the holes before them are flattened as in JavaScript.
- Relay.RelayChunk: the delivery clause covers only connections other than the sender, because the heartbeat refresh rewrites the sender's own entry before the broadcast.
- Room.Sweep: the close handler that a forced close triggers later is a separate transition (`Room.OnClose`).
- Logging, and the `online_users`, `user_joined` and `pong` display updates on the client.

## Findings

| source | as written | input that shows it | evidently intended | confidence | as-written member | corrected member |
|---|---|---|---|---|---|---|
| src/ChatRoom.js:282 | a connection kicked by a duplicate-nickname join is deleted from the map without lowering its address count, and its later `close` event no longer finds it | `bob` connected from 1.2.3.4, then `bob` joins from another device: the count for 1.2.3.4 becomes 2 with one connection; after four such rejoins the count is 5 and every further join from that address is refused | release the kicked connection's address count, as the heartbeat sweep does | not executed | Room.KickLeaksIpCount | Room.JoinKeepsInv |
| src/ChatRoom.js:620 | a recipient whose send fails is deleted without lowering its address count; the `message` case's own send loop (src/ChatRoom.js:473) does the same, so every relay path of `Relay.Handle` with `AsWritten` leaks (`Relay.ChatSendFailureLeaksIpCount`) | room `{c1: bob from 1.2.3.4}`, send to `c1` fails: the map is empty and the count stays 1 | release the address count of every removed connection; the relay with `Corrected` then keeps exact counts (`Relay.HandleKeepsInv`) | not executed | Room.SendFailureLeaksIpCount | Room.BroadcastKeepsInv |
| src/ChatRoom.js:608 | the `error` handler deletes the connection without lowering its address count, and the following `close` finds nothing to release | room `{c1: bob from 1.2.3.4}`, error on `c1`, then close: the count stays 1 with no connection | release the address count on error as on close | not executed | Room.ErrorLeaksIpCount | Room.OnErrorKeepsInv |
| public/chat.js:510 | `cleanupOldNonces` reads `Date.now()` while `verifyNonce` reads `Date.now() + serverTimeOffset`, so with a negative offset a nonce is purged while still inside the acceptance window | offset −3000: nonce at timestamp 0 accepted at local 3000, purged at local 6001, accepted again at local 6001 (the same run through the message path: `Session.TickReopensNonceAsWritten`) | purge on the same corrected clock as verification (`Session.CorrectedTickKeepsReplayOut`) | not executed | Nonces.ClientReplayAsWritten | Nonces.ClientAtMostOnce |
| public/chat.js:2417-2419 | the reconnect timer increments `reconnectAttempts` and calls `connect`, which sees the closed but still referenced socket and calls `disconnect`, resetting the counter to 0 | a server that refuses every connection: every retry is scheduled after 1000 ms, forever | keep the counter across the timer's reconnect so the delay doubles and the 15-attempt limit applies | not executed | Reconnect.RetriesNeverBackOffAsWritten | Reconnect.RetriesFollowBackoff |
