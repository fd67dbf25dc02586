/**
 The client's handling of relayed chat messages (`handleMessage`, case
 `message`, public/chat.js) and of its own outgoing ones (`sendMessage`):
 sender nickname decryption, the nonce check and registration, the
 signature check against the sender's published key, content decryption,
 and the suppression of an identical message sent twice within 5 s.

 Crypto calls are parameters; the clock is the local `Date.now()` and the
 server offset is an opaque integer.
 */
module Session {
  import opened Common
  import Nonces

  type Cipher = seq<Byte>
  type Signature = seq<Byte>
  type Key = seq<Byte>

  const DuplicateThresholdMs := 5000
  const EncryptedPlaceholder := "[Encrypted]"

  /** A relayed `message`. Absent (falsy) fields are `None`. */
  datatype Envelope = Envelope(
    connectionId: ConnId,
    from: string,
    encryptedNickname: Option<Cipher>,
    nonce: Option<Nonces.Nonce>,
    signature: Option<Signature>,
    encryptedContent: Cipher,
    timestamp: int)

  /** The part of a room client this path reads and writes. */
  datatype Client = Client(
    myId: ConnId,
    usedNonces: Nonces.Registry,
    peerKeys: map<ConnId, Key>,
    sharedSecrets: map<ConnId, Key>,
    offset: int)

  datatype Crypto = Crypto(
    decryptNickname: (Cipher, Key) -> Option<string>,
    verifySignature: (Envelope, Signature, Key) -> bool,
    decryptContent: Cipher -> Option<string>)

  datatype ChatOutcome =
    | RejectedNonce
    | RejectedSignature
    | Undecryptable
    | Displayed(from: string, text: string, timestamp: int, isOwn: bool)

  datatype ChatResult = ChatResult(usedNonces: Nonces.Registry, outcome: ChatOutcome)

  /**
   The displayed sender: the plain `from` for own or unencrypted names; the
   decrypted nickname when a shared secret with the sender exists and
   decryption succeeds; the placeholder otherwise.
   */
  function SenderName(c: Client, env: Envelope, crypto: Crypto): (name: string)
    ensures env.encryptedNickname.None? || env.connectionId == c.myId ==> name == env.from
    ensures env.encryptedNickname.Some? && env.connectionId != c.myId && env.connectionId !in c.sharedSecrets ==>
      name == EncryptedPlaceholder
    ensures env.encryptedNickname.Some? && env.connectionId != c.myId && env.connectionId in c.sharedSecrets ==>
      var d := crypto.decryptNickname(env.encryptedNickname.value, c.sharedSecrets[env.connectionId]);
      (d.Some? ==> name == d.value) && (d.None? ==> name == EncryptedPlaceholder)
  {
    if env.encryptedNickname.Some? && env.connectionId != c.myId then
      if env.connectionId in c.sharedSecrets then
        match crypto.decryptNickname(env.encryptedNickname.value, c.sharedSecrets[env.connectionId])
        case Some(n) => n
        case None => EncryptedPlaceholder
      else EncryptedPlaceholder
    else env.from
  }

  /** The signature check fails only for a signed message from a peer whose key is known. */
  predicate SignatureRejected(c: Client, env: Envelope, crypto: Crypto) {
    && env.signature.Some?
    && env.connectionId != c.myId
    && env.connectionId in c.peerKeys
    && !crypto.verifySignature(env, env.signature.value, c.peerKeys[env.connectionId])
  }

  /**
   The `message` case. A message with a nonce is dropped when the nonce is
   stale or already used; otherwise the nonce is registered at once, before
   the signature is checked, so a message dropped for its signature has
   still used up its nonce. A message without a nonce is processed without
   any replay check and leaves the registry alone.
   */
  function ReceiveChat(c: Client, env: Envelope, localNow: int, crypto: Crypto): (r: ChatResult)
    ensures env.nonce.None? ==> r.usedNonces == c.usedNonces && r.outcome != RejectedNonce
    ensures env.nonce.Some? ==>
      (r.outcome == RejectedNonce <==> !Nonces.ClientVerify(env.nonce.value, c.usedNonces, localNow, c.offset))
    ensures r.outcome == RejectedNonce ==> r.usedNonces == c.usedNonces
    ensures env.nonce.Some? && r.outcome != RejectedNonce ==>
      r.usedNonces == Nonces.Register(c.usedNonces, env.nonce.value)
    ensures r.outcome == RejectedSignature <==> r.outcome != RejectedNonce && SignatureRejected(c, env, crypto)
    ensures r.outcome != RejectedNonce && !SignatureRejected(c, env, crypto) ==>
      (r.outcome.Displayed? <==> crypto.decryptContent(env.encryptedContent).Some?)
    ensures r.outcome == Undecryptable <==>
      r.outcome != RejectedNonce && !SignatureRejected(c, env, crypto) && crypto.decryptContent(env.encryptedContent).None?
    ensures r.outcome.Displayed? ==>
      && Some(r.outcome.text) == crypto.decryptContent(env.encryptedContent)
      && r.outcome.from == SenderName(c, env, crypto)
      && r.outcome.isOwn == (env.connectionId == c.myId)
  {
    if env.nonce.Some? && !Nonces.ClientVerify(env.nonce.value, c.usedNonces, localNow, c.offset) then
      ChatResult(c.usedNonces, RejectedNonce)
    else
      var used := if env.nonce.Some? then Nonces.Register(c.usedNonces, env.nonce.value) else c.usedNonces;
      if SignatureRejected(c, env, crypto) then ChatResult(used, RejectedSignature)
      else
        match crypto.decryptContent(env.encryptedContent)
        case None => ChatResult(used, Undecryptable)
        case Some(text) =>
          ChatResult(used, Displayed(SenderName(c, env, crypto), text, env.timestamp, env.connectionId == c.myId))
  }

  /**
   A delivered nonce is not accepted again: any later message carrying the
   same nonce value is dropped while the registry still holds it, whatever
   became of the first message.
   */
  lemma ReplayDropped(c: Client, env: Envelope, again: Envelope, localNow: int, later: int, crypto: Crypto)
    requires env.nonce.Some? && again.nonce.Some? && again.nonce.value.value == env.nonce.value.value
    requires ReceiveChat(c, env, localNow, crypto).outcome != RejectedNonce
    ensures ReceiveChat(c.(usedNonces := ReceiveChat(c, env, localNow, crypto).usedNonces), again, later, crypto).outcome
      == RejectedNonce
  {
  }

  /**
   The registry is written before the signature check: a message with a
   forged signature under a fresh nonce value makes the genuine message
   with that nonce value be dropped as a replay.
   */
  lemma ForgeryUsesUpNonce(c: Client, forged: Envelope, genuine: Envelope, localNow: int, crypto: Crypto)
    requires forged.nonce.Some? && genuine.nonce == forged.nonce
    requires Nonces.ClientVerify(forged.nonce.value, c.usedNonces, localNow, c.offset)
    requires SignatureRejected(c, forged, crypto)
    ensures ReceiveChat(c, forged, localNow, crypto).outcome == RejectedSignature
    ensures ReceiveChat(c.(usedNonces := ReceiveChat(c, forged, localNow, crypto).usedNonces), genuine, localNow, crypto)
      .outcome == RejectedNonce
  {
  }

  /**
   The periodic purge. As written it reads the local clock without the
   server offset that `ReceiveChat` adds (see `Nonces.ClientReplayAsWritten`).
   */
  function NonceCleanupTick(c: Client, localNow: int): (c': Client)
    ensures forall v :: v in c'.usedNonces <==>
      v in c.usedNonces && localNow - c.usedNonces[v] <= Nonces.ClientPurgeAge
    ensures forall v :: v in c'.usedNonces ==> c'.usedNonces[v] == c.usedNonces[v]
    ensures c'.(usedNonces := c.usedNonces) == c
  {
    c.(usedNonces := Nonces.ClientCleanupAsWritten(c.usedNonces, localNow))
  }

  /** The periodic purge on the same offset-corrected clock as `ReceiveChat`. */
  function NonceCleanupTickCorrected(c: Client, localNow: int): (c': Client)
    ensures forall v :: v in c'.usedNonces <==>
      v in c.usedNonces && localNow + c.offset - c.usedNonces[v] <= Nonces.ClientPurgeAge
    ensures forall v :: v in c'.usedNonces ==> c'.usedNonces[v] == c.usedNonces[v]
    ensures c'.(usedNonces := c.usedNonces) == c
  {
    c.(usedNonces := Nonces.ClientCleanup(c.usedNonces, localNow, c.offset))
  }

  /**
   As written, the purge can reopen a nonce: with the local clock 3 s ahead
   of the server, a message stamped 0 is accepted at local 3000, the tick at
   local 6001 purges its nonce, and the same message is accepted again at
   local 6001.
   */
  lemma TickReopensNonceAsWritten()
    ensures var c := Client("me", map[], map[], map[], -3000);
      var env := Envelope("peer", "bob", None, Some(Nonces.Nonce(0, "0-00")), None, [], 0);
      var crypto := Crypto((_, _) => None, (_, _, _) => false, _ => Some("hi"));
      var first := ReceiveChat(c, env, 3000, crypto);
      && first.outcome == Displayed("bob", "hi", 0, false)
      && ReceiveChat(NonceCleanupTick(c.(usedNonces := first.usedNonces), 6001), env, 6001, crypto).outcome
         == Displayed("bob", "hi", 0, false)
  {
    var c := Client("me", map[], map[], map[], -3000);
    var env := Envelope("peer", "bob", None, Some(Nonces.Nonce(0, "0-00")), None, [], 0);
    var crypto := Crypto((_, _) => None, (_, _, _) => false, _ => Some("hi"));
    var first := ReceiveChat(c, env, 3000, crypto);
    assert first.usedNonces == map["0-00" := 0];
    assert NonceCleanupTick(c.(usedNonces := first.usedNonces), 6001).usedNonces == map[];
  }

  /**
   With the corrected purge a message, once past the nonce check, is never
   accepted again: whenever the purge has dropped its nonce, the window has
   closed for it too.
   */
  lemma CorrectedTickKeepsReplayOut(c: Client, env: Envelope, localNow: int, tick: int, later: int, crypto: Crypto)
    requires env.nonce.Some? && ReceiveChat(c, env, localNow, crypto).outcome != RejectedNonce
    requires tick <= later
    ensures var c1 := c.(usedNonces := ReceiveChat(c, env, localNow, crypto).usedNonces);
      ReceiveChat(NonceCleanupTickCorrected(c1, tick), env, later, crypto).outcome == RejectedNonce
  {
    var c1 := c.(usedNonces := ReceiveChat(c, env, localNow, crypto).usedNonces);
    var n := env.nonce.value;
    assert c1.usedNonces[n.value] == n.timestamp;
    var c2 := NonceCleanupTickCorrected(c1, tick);
    if n.value !in c2.usedNonces {
      assert tick + c.offset - n.timestamp > Nonces.ClientPurgeAge;
    }
  }

  /** `public_key`: the sender's signing key is stored, and a shared secret when it sent an ECDH key. */
  function PeerKeyArrived(c: Client, id: ConnId, key: Key, secret: Option<Key>): (c': Client)
    ensures id in c'.peerKeys && c'.peerKeys[id] == key
    ensures secret.Some? ==> id in c'.sharedSecrets && c'.sharedSecrets[id] == secret.value
    ensures secret.None? ==> c'.sharedSecrets == c.sharedSecrets
    ensures forall k :: k != id ==> (k in c'.peerKeys <==> k in c.peerKeys)
    ensures forall k :: k != id && k in c.peerKeys ==> c'.peerKeys[k] == c.peerKeys[k]
    ensures forall k :: k != id ==> (k in c'.sharedSecrets <==> k in c.sharedSecrets)
    ensures forall k :: k != id && k in c.sharedSecrets ==> c'.sharedSecrets[k] == c.sharedSecrets[k]
    ensures c'.(peerKeys := c.peerKeys, sharedSecrets := c.sharedSecrets) == c
  {
    c.(peerKeys := c.peerKeys[id := key],
       sharedSecrets := if secret.Some? then c.sharedSecrets[id := secret.value] else c.sharedSecrets)
  }

  /** `user_left`: the leaver's signing key is forgotten (its shared secret is kept). */
  function PeerLeft(c: Client, id: ConnId): (c': Client)
    ensures id !in c'.peerKeys
    ensures forall k :: k != id ==> (k in c'.peerKeys <==> k in c.peerKeys)
    ensures forall k :: k in c'.peerKeys ==> c'.peerKeys[k] == c.peerKeys[k]
    ensures c'.(peerKeys := c.peerKeys) == c
  {
    c.(peerKeys := c.peerKeys - {id})
  }

  /**
   After a peer leaves, its signed messages are no longer checked against
   a key: they pass the signature stage whatever the signature says.
   */
  lemma LeftPeerUnchecked(c: Client, env: Envelope, crypto: Crypto)
    ensures !SignatureRejected(PeerLeft(c, env.connectionId), env, crypto)
  {
  }

  // ---------------------------------------------------------------------------
  // Outgoing duplicate suppression
  // ---------------------------------------------------------------------------

  /** `lastSentMessage` (initially `null`) and `lastSentTime` (initially 0). */
  datatype SendState = SendState(lastSent: Option<string>, lastSentTime: int)

  const InitialSendState := SendState(None, 0)

  datatype SendResult = SendResult(sent: bool, state: SendState)

  /**
   `sendMessage`: the same text as the last accepted one, less than 5 s
   after it, is refused and changes nothing; anything else is accepted and
   becomes the new reference.
   */
  function CheckSend(s: SendState, text: string, now: int): (r: SendResult)
    ensures !r.sent <==> s.lastSent == Some(text) && now - s.lastSentTime < DuplicateThresholdMs
    ensures !r.sent ==> r.state == s
    ensures r.sent ==> r.state == SendState(Some(text), now)
  {
    if s.lastSent == Some(text) && now - s.lastSentTime < DuplicateThresholdMs then SendResult(false, s)
    else SendResult(true, SendState(Some(text), now))
  }

  /** The send state after attempting `text` at each time in `ts`, in order. */
  function AfterAll(s: SendState, text: string, ts: seq<int>): SendState
    decreases |ts|
  {
    if |ts| == 0 then s else AfterAll(CheckSend(s, text, ts[0]).state, text, ts[1..])
  }

  lemma {:induction false} RefusalsKeepReference(s: SendState, text: string, ts: seq<int>)
    requires s.lastSent == Some(text)
    requires forall i :: 0 <= i < |ts| ==> ts[i] - s.lastSentTime < DuplicateThresholdMs
    ensures AfterAll(s, text, ts) == s
    decreases |ts|
  {
    if |ts| > 0 {
      RefusalsKeepReference(s, text, ts[1..]);
    }
  }

  /**
   Repeats are measured from the last accepted send, not from the last
   attempt: after `text` is accepted at `t0`, every repeat earlier than
   `t0 + 5000` is refused and leaves the state as it was, and a repeat at
   `t0 + 5000` is accepted, however many refused attempts came in between.
   */
  lemma RepeatsMeasuredFromAcceptedSend(s: SendState, text: string, t0: int, ts: seq<int>)
    requires CheckSend(s, text, t0).sent
    requires forall i :: 0 <= i < |ts| ==> ts[i] - t0 < DuplicateThresholdMs
    ensures forall i :: 0 <= i < |ts| ==> !CheckSend(CheckSend(s, text, t0).state, text, ts[i]).sent
    ensures AfterAll(CheckSend(s, text, t0).state, text, ts) == SendState(Some(text), t0)
    ensures CheckSend(AfterAll(CheckSend(s, text, t0).state, text, ts), text, t0 + DuplicateThresholdMs).sent
  {
    RefusalsKeepReference(CheckSend(s, text, t0).state, text, ts);
  }
}
