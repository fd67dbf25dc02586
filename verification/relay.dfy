/**
 The relay's handling of one incoming frame on a room socket (the `message`
 listener of src/ChatRoom.js): the 100 KB size gate with its three-strike
 close, the message rate limiter that `ping` and `file_chunk` bypass, and
 the per-type dispatch — heartbeat and pong, public-key storage and
 relay, the clock-skew check on chat messages, the file-sender slot, and
 the file-chunk limiter and size checks.

 A frame is given already classified by its `type` field; its JSON text
 only contributes its length. Sends that fail during a relay are the
 `failed` input, and a `Fanout` chooses whether their removal keeps the
 address counts as the code does or releases them.
 */
module Relay {
  import opened Common
  import RateLimit
  import FileSlot
  import Room

  const MaxMessageSize := 100 * 1024
  const SizeViolationLimit := 3
  const MaxClockSkewMs := 60000
  const MaxChunkLength := 512 * 1024
  const MaxTotalChunks := 1000

  /**
   A parsed frame by `type`. Absent fields are `None` (or 0 for the chunk
   text length); `OtherType` is any type the switch does not name, and
   `Unparseable` is text that is not JSON.
   */
  datatype Frame =
    | Ping
    | PublicKey(publicKey: Option<Room.Key>, ecdhPublicKey: Option<Room.Key>)
    | ChatMessage(timestamp: Option<int>)
    | FileTransferRequest
    | FileTransferComplete
    | FileTransferCancel
    | FileChunk(chunkLength: nat, totalChunks: Option<int>)
    | OtherType
    | Unparseable

  /** A frame together with the length of its text. */
  datatype Incoming = Incoming(size: nat, frame: Frame)

  /** The two types the message rate limiter does not see. */
  predicate Exempt(f: Frame) {
    f.Ping? || f.FileChunk?
  }

  /** What the sender is sent back, or what was relayed to the room. */
  datatype Outcome =
    | TooLarge(violations: nat, closeCode: Option<int>)
    | Dropped
    | Rejected(code: Room.ErrorCode)
    | Pong(timestamp: int)
    | KeysRelayed(delivered: seq<ConnId>)
    | MessageRelayed(serverTimestamp: int, delivered: seq<ConnId>)
    | SlotAnswered(reply: FileSlot.SlotReply)
    | SlotReleased
    | CancelRelayed(delivered: seq<ConnId>)
    | ChunkRelayed(delivered: seq<ConnId>)

  datatype FrameResult = FrameResult(room: Room.RoomState, outcome: Outcome)

  /**
   Which removal of failed recipients the relay uses: the code as written
   (`Room.BroadcastAsWritten`, also the `message` case's own send loop), or
   the corrected one that releases their address counts (`Room.Broadcast`).
   */
  datatype Fanout = AsWritten | Corrected

  function Fan(r: Room.RoomState, exclude: Option<ConnId>, failed: set<ConnId>, fan: Fanout): (res: Room.BroadcastResult)
    ensures forall e :: e in res.room.conns <==> e in r.conns && !(Room.Recipient(e, exclude) && e.id in failed)
    ensures forall e :: e in r.conns ==> (e.id in res.delivered <==> Room.Recipient(e, exclude) && e.id !in failed)
    ensures res.room.(conns := r.conns, ipCount := r.ipCount) == r
  {
    match fan
    case AsWritten => Room.BroadcastAsWritten(r, exclude, failed)
    case Corrected => Room.Broadcast(r, exclude, failed)
  }

  /** The room invariant each variant keeps: exact address counts when corrected, covering ones as written. */
  ghost predicate Keeps(fan: Fanout, r: Room.RoomState) {
    match fan
    case AsWritten => Room.InvAsWritten(r)
    case Corrected => Room.Inv(r)
  }

  // ---------------------------------------------------------------------------
  // Updating one connection in place
  // ---------------------------------------------------------------------------

  /** The two in-place writes: a heartbeat, or the sender's published keys. */
  datatype Patch = Beat(at: int) | Keys(publicKey: Option<Room.Key>, ecdhPublicKey: Option<Room.Key>)

  /** The ECDH key is only overwritten by a present one; the signing key always is. */
  function Apply(c: Room.Conn, p: Patch): (c': Room.Conn)
    ensures c'.nickname == c.nickname && c'.ip == c.ip
    ensures p.Beat? ==> c' == c.(lastHeartbeat := p.at)
    ensures p.Keys? ==> c'.publicKey == p.publicKey && c'.lastHeartbeat == c.lastHeartbeat
    ensures p.Keys? ==> c'.ecdhPublicKey == (if p.ecdhPublicKey.Some? then p.ecdhPublicKey else c.ecdhPublicKey)
  {
    match p
    case Beat(at) => c.(lastHeartbeat := at)
    case Keys(pk, ecdh) => c.(publicKey := pk, ecdhPublicKey := if ecdh.Some? then ecdh else c.ecdhPublicKey)
  }

  /**
   `connections.get(id)` followed by a field write when the connection
   exists: only that connection changes, the map keeps its order, ids,
   nicknames and addresses, and so every uniqueness property.
   */
  function Update(cs: seq<Room.Entry>, id: ConnId, p: Patch): (r: seq<Room.Entry>)
    ensures |r| == |cs| && Room.Ids(r) == Room.Ids(cs)
    ensures forall x :: x != id ==> Room.Find(r, x) == Room.Find(cs, x)
    ensures Room.Find(cs, id).Some? ==> Room.Find(r, id) == Some(Apply(Room.Find(cs, id).value, p))
    ensures Room.Find(cs, id).None? ==> r == cs
    ensures forall ip :: Room.CountIp(r, ip) == Room.CountIp(cs, ip)
    ensures forall n :: Room.CountNick(r, n) == Room.CountNick(cs, n)
    ensures Room.DistinctIds(cs) ==> Room.DistinctIds(r)
    ensures Room.UniqueNicknames(cs) ==> Room.UniqueNicknames(r)
    ensures forall e :: e in cs && e.id != id ==> e in r
  {
    if |cs| == 0 then []
    else
      var head := if cs[0].id == id then Room.Entry(id, Apply(cs[0].conn, p)) else cs[0];
      var rest := Update(cs[1..], id, p);
      assert ([head] + rest)[1..] == rest;
      [head] + rest
  }

  lemma {:induction false} FindIn(cs: seq<Room.Entry>, id: ConnId)
    requires Room.Find(cs, id).Some?
    ensures Room.Entry(id, Room.Find(cs, id).value) in cs
  {
    if cs[0].id != id {
      FindIn(cs[1..], id);
    }
  }

  lemma UpdateKeepsInv(r: Room.RoomState, id: ConnId, p: Patch)
    requires Room.Inv(r)
    ensures Room.Inv(r.(conns := Update(r.conns, id, p)))
  {
  }

  // ---------------------------------------------------------------------------
  // The handler
  // ---------------------------------------------------------------------------

  /** The clock-skew rule: the client's timestamp, 0 when absent, must be within a minute of the server's. */
  function SkewTooLarge(now: int, timestamp: Option<int>): (bad: bool)
    ensures timestamp.None? ==> (bad <==> Abs(now) > MaxClockSkewMs)
    ensures !bad ==> timestamp.GetOr(0) - MaxClockSkewMs <= now <= timestamp.GetOr(0) + MaxClockSkewMs
    ensures timestamp.Some? ==>
      (bad <==> now < timestamp.value - MaxClockSkewMs || now > timestamp.value + MaxClockSkewMs)
  {
    Abs(now - timestamp.GetOr(0)) > MaxClockSkewMs
  }

  /** `public_key`: the sender's keys are stored, then relayed to everyone else. */
  function RelayKeys(r: Room.RoomState, id: ConnId, pk: Option<Room.Key>, ecdh: Option<Room.Key>, failed: set<ConnId>, fan: Fanout)
    : (res: FrameResult)
    ensures res.outcome.KeysRelayed?
    ensures res.room == Fan(r.(conns := Update(r.conns, id, Keys(pk, ecdh))), Some(id), failed, fan).room
    ensures forall e :: e in r.conns ==> (e.id in res.outcome.delivered <==> e.id != id && e.id !in failed)
  {
    var r1 := r.(conns := Update(r.conns, id, Keys(pk, ecdh)));
    var b := Fan(r1, Some(id), failed, fan);
    FrameResult(b.room, KeysRelayed(b.delivered))
  }

  /** `message`: refused on clock skew, otherwise relayed to every connection, the sender included. */
  function RelayChat(r: Room.RoomState, timestamp: Option<int>, now: int, failed: set<ConnId>, fan: Fanout): (res: FrameResult)
    ensures res.outcome == Rejected(Room.ClockSkew) <==> SkewTooLarge(now, timestamp)
    ensures res.outcome == Rejected(Room.ClockSkew) ==> res.room == r
    ensures !SkewTooLarge(now, timestamp) ==>
      && res.outcome.MessageRelayed? && res.outcome.serverTimestamp == now
      && res.room == Fan(r, None, failed, fan).room
      && forall e :: e in r.conns ==> (e.id in res.outcome.delivered <==> e.id !in failed)
  {
    if SkewTooLarge(now, timestamp) then FrameResult(r, Rejected(Room.ClockSkew))
    else
      var b := Fan(r, None, failed, fan);
      FrameResult(b.room, MessageRelayed(now, b.delivered))
  }

  /** `file_transfer_cancel`: the slot is released and the cancellation relayed to every connection. */
  function RelayCancel(r: Room.RoomState, id: ConnId, failed: set<ConnId>, fan: Fanout): (res: FrameResult)
    ensures res.outcome.CancelRelayed?
    ensures res.room.activeTransfers == FileSlot.Release(r.activeTransfers, id)
    ensures res.room == Fan(r.(activeTransfers := FileSlot.Release(r.activeTransfers, id)), None, failed, fan).room
    ensures forall e :: e in r.conns ==> (e.id in res.outcome.delivered <==> e.id !in failed)
  {
    var b := Fan(r.(activeTransfers := FileSlot.Release(r.activeTransfers, id)), None, failed, fan);
    FrameResult(b.room, CancelRelayed(b.delivered))
  }

  /** A relayed chunk larger than 512 K characters or announcing more than 1000 chunks is dropped silently. */
  predicate ChunkOversized(chunkLength: nat, totalChunks: Option<int>) {
    chunkLength > MaxChunkLength || totalChunks.GetOr(0) > MaxTotalChunks
  }

  /** A chunk within the chunk limiter: charged to it, and the sender's heartbeat refreshed. */
  function ChargeChunk(r: Room.RoomState, id: ConnId, now: int): Room.RoomState {
    r.(chunkRate := RateLimit.CheckChunk(r.chunkRate, id, now).store, conns := Update(r.conns, id, Beat(now)))
  }

  /**
   `file_chunk`: refused over the chunk limiter; otherwise charged and the
   heartbeat refreshed, then dropped when oversized — after the refresh —
   or relayed to every connection, the sender included.
   */
  function RelayChunk(r: Room.RoomState, id: ConnId, len: nat, total: Option<int>, now: int, failed: set<ConnId>, fan: Fanout)
    : (res: FrameResult)
    ensures res.outcome == Rejected(Room.FileChunkRateLimit) <==> !RateLimit.CheckChunk(r.chunkRate, id, now).allowed
    ensures res.outcome == Rejected(Room.FileChunkRateLimit) ==> res.room == r
    ensures RateLimit.CheckChunk(r.chunkRate, id, now).allowed ==> (res.outcome == Dropped <==> ChunkOversized(len, total))
    ensures res.outcome == Dropped ==> res.room == ChargeChunk(r, id, now)
    ensures res.outcome.ChunkRelayed? ==>
      && res.room == Fan(ChargeChunk(r, id, now), None, failed, fan).room
      && forall e :: e in r.conns && e.id != id ==> (e.id in res.outcome.delivered <==> e.id !in failed)
    ensures res.outcome.Rejected? || res.outcome == Dropped || res.outcome.ChunkRelayed?
  {
    if !RateLimit.CheckChunk(r.chunkRate, id, now).allowed then FrameResult(r, Rejected(Room.FileChunkRateLimit))
    else
      var r1 := ChargeChunk(r, id, now);
      if ChunkOversized(len, total) then FrameResult(r1, Dropped)
      else
        var b := Fan(r1, None, failed, fan);
        FrameResult(b.room, ChunkRelayed(b.delivered))
  }

  /** The `switch (data.type)` on a frame that passed the size gate and the message limiter. */
  function Dispatch(r: Room.RoomState, id: ConnId, f: Frame, now: int, failed: set<ConnId>, fan: Fanout): (res: FrameResult)
    requires !f.Unparseable?
    ensures f.Ping? ==> res == FrameResult(r.(conns := Update(r.conns, id, Beat(now))), Pong(now))
    ensures f.PublicKey? ==> res == RelayKeys(r, id, f.publicKey, f.ecdhPublicKey, failed, fan)
    ensures f.ChatMessage? ==> res == RelayChat(r, f.timestamp, now, failed, fan)
    ensures f.FileTransferRequest? ==>
      res.outcome == SlotAnswered(FileSlot.Request(r.activeTransfers, id).reply)
      && res.room == r.(activeTransfers := FileSlot.Request(r.activeTransfers, id).active)
    ensures f.FileTransferComplete? ==>
      res == FrameResult(r.(activeTransfers := FileSlot.Release(r.activeTransfers, id)), SlotReleased)
    ensures f.FileTransferCancel? ==> res == RelayCancel(r, id, failed, fan)
    ensures f.FileChunk? ==> res == RelayChunk(r, id, f.chunkLength, f.totalChunks, now, failed, fan)
    ensures !f.FileChunk? ==> res.room.chunkRate == r.chunkRate
    ensures f.OtherType? ==> res == FrameResult(r, Dropped)
    ensures res.room.messageRate == r.messageRate && res.room.sizeViolations == r.sizeViolations
    ensures !res.outcome.TooLarge? && res.outcome != Rejected(Room.RateLimitExceeded)
  {
    match f
    case Ping =>
      FrameResult(r.(conns := Update(r.conns, id, Beat(now))), Pong(now))
    case PublicKey(pk, ecdh) =>
      RelayKeys(r, id, pk, ecdh, failed, fan)
    case ChatMessage(ts) =>
      RelayChat(r, ts, now, failed, fan)
    case FileTransferRequest =>
      var s := FileSlot.Request(r.activeTransfers, id);
      FrameResult(r.(activeTransfers := s.active), SlotAnswered(s.reply))
    case FileTransferComplete =>
      FrameResult(r.(activeTransfers := FileSlot.Release(r.activeTransfers, id)), SlotReleased)
    case FileTransferCancel =>
      RelayCancel(r, id, failed, fan)
    case FileChunk(len, total) =>
      RelayChunk(r, id, len, total, now, failed, fan)
    case OtherType =>
      FrameResult(r, Dropped)
  }

  /**
   A frame that passed the size gate and parsed: every type except `ping`
   and `file_chunk` is charged to the message limiter and refused when
   over it; then the frame is dispatched on its type.
   */
  function Admit(r: Room.RoomState, id: ConnId, f: Frame, now: int, failed: set<ConnId>, fan: Fanout): (res: FrameResult)
    requires !f.Unparseable?
    ensures Exempt(f) ==> res.room.messageRate == r.messageRate && res.outcome != Rejected(Room.RateLimitExceeded)
    ensures !Exempt(f) ==>
      && (res.outcome == Rejected(Room.RateLimitExceeded) <==> !RateLimit.CheckMessage(r.messageRate, id, now).allowed)
      && res.room.messageRate == RateLimit.CheckMessage(r.messageRate, id, now).store
    ensures f.Ping? ==> res.outcome == Pong(now)
    ensures !f.FileChunk? ==> res.room.chunkRate == r.chunkRate
    ensures res.room.sizeViolations == r.sizeViolations && !res.outcome.TooLarge?
  {
    if Exempt(f) then Dispatch(r, id, f, now, failed, fan)
    else
      var verdict := RateLimit.CheckMessage(r.messageRate, id, now);
      if !verdict.allowed then FrameResult(r, Rejected(Room.RateLimitExceeded))
      else Dispatch(r.(messageRate := verdict.store), id, f, now, failed, fan)
  }

  /**
   One frame from connection `id` at clock `now`. An oversized frame is
   refused before it is parsed, counted against the sender, and the third
   such frame closes the socket with 1008. Text that is not JSON is
   ignored; anything else goes through `Admit`.
   */
  function Handle(r: Room.RoomState, id: ConnId, m: Incoming, now: int, failed: set<ConnId>, fan: Fanout): (res: FrameResult)
    ensures m.size > MaxMessageSize ==>
      && res.outcome.TooLarge?
      && res.outcome.violations == GetOr(r.sizeViolations, id, 0) + 1
      && (res.outcome.closeCode.Some? <==> res.outcome.violations >= SizeViolationLimit)
      && (res.outcome.closeCode.Some? ==> res.outcome.closeCode.value == Room.PolicyViolation)
      && res.room == r.(sizeViolations := r.sizeViolations[id := res.outcome.violations])
    ensures m.size <= MaxMessageSize && m.frame.Unparseable? ==> res == FrameResult(r, Dropped)
    ensures m.size <= MaxMessageSize && !m.frame.Unparseable? ==> res == Admit(r, id, m.frame, now, failed, fan)
    ensures m.size <= MaxMessageSize ==> res.room.sizeViolations == r.sizeViolations
    ensures Exempt(m.frame) || m.frame.Unparseable? || m.size > MaxMessageSize ==>
      res.room.messageRate == r.messageRate && res.outcome != Rejected(Room.RateLimitExceeded)
  {
    if m.size > MaxMessageSize then
      var v := GetOr(r.sizeViolations, id, 0) + 1;
      FrameResult(r.(sizeViolations := r.sizeViolations[id := v]),
                  TooLarge(v, if v >= SizeViolationLimit then Some(Room.PolicyViolation) else None))
    else if m.frame.Unparseable? then FrameResult(r, Dropped)
    else Admit(r, id, m.frame, now, failed, fan)
  }

  // ---------------------------------------------------------------------------
  // Properties
  // ---------------------------------------------------------------------------

  /**
   Handling any frame keeps the room invariant of its variant: with the
   corrected removal every invariant including exact address counts; as
   written, `Room.InvAsWritten`, so the per-address and room caps still hold.
   */
  lemma HandleKeepsInv(r: Room.RoomState, id: ConnId, m: Incoming, now: int, failed: set<ConnId>, fan: Fanout)
    requires Keeps(fan, r)
    ensures Keeps(fan, Handle(r, id, m, now, failed, fan).room)
  {
    if m.size <= MaxMessageSize && !m.frame.Unparseable? {
      if Exempt(m.frame) {
        DispatchKeepsInv(r, id, m.frame, now, failed, fan);
      } else {
        var r1 := r.(messageRate := RateLimit.CheckMessage(r.messageRate, id, now).store);
        OutsideKeeps(fan, r, r1);
        DispatchKeepsInv(r1, id, m.frame, now, failed, fan);
      }
    } else {
      OutsideKeeps(fan, r, Handle(r, id, m, now, failed, fan).room);
    }
  }

  lemma DispatchKeepsInv(r: Room.RoomState, id: ConnId, f: Frame, now: int, failed: set<ConnId>, fan: Fanout)
    requires Keeps(fan, r) && !f.Unparseable?
    ensures Keeps(fan, Dispatch(r, id, f, now, failed, fan).room)
  {
    match f
    case Ping =>
      UpdateKeeps(fan, r, id, Beat(now));
    case PublicKey(pk, ecdh) =>
      KeysKeepInv(r, id, pk, ecdh, failed, fan);
    case ChatMessage(ts) =>
      FanKeeps(r, None, failed, fan);
    case FileTransferRequest =>
      SlotsKeep(fan, r, FileSlot.Request(r.activeTransfers, id).active);
    case FileTransferComplete =>
      FileSlot.SubsetCard(FileSlot.Release(r.activeTransfers, id), r.activeTransfers);
      SlotsKeep(fan, r, FileSlot.Release(r.activeTransfers, id));
    case FileTransferCancel =>
      CancelKeepsInv(r, id, failed, fan);
    case FileChunk(len, total) =>
      ChunkKeepsInv(r, id, len, total, now, failed, fan);
    case OtherType =>
  }

  lemma KeysKeepInv(r: Room.RoomState, id: ConnId, pk: Option<Room.Key>, ecdh: Option<Room.Key>,
                    failed: set<ConnId>, fan: Fanout)
    requires Keeps(fan, r)
    ensures Keeps(fan, RelayKeys(r, id, pk, ecdh, failed, fan).room)
  {
    UpdateKeeps(fan, r, id, Keys(pk, ecdh));
    FanKeeps(r.(conns := Update(r.conns, id, Keys(pk, ecdh))), Some(id), failed, fan);
  }

  lemma CancelKeepsInv(r: Room.RoomState, id: ConnId, failed: set<ConnId>, fan: Fanout)
    requires Keeps(fan, r)
    ensures Keeps(fan, RelayCancel(r, id, failed, fan).room)
  {
    var r1 := r.(activeTransfers := FileSlot.Release(r.activeTransfers, id));
    FileSlot.SubsetCard(r1.activeTransfers, r.activeTransfers);
    FanKeeps(r1, None, failed, fan);
  }

  lemma ChunkKeepsInv(r: Room.RoomState, id: ConnId, len: nat, total: Option<int>, now: int,
                      failed: set<ConnId>, fan: Fanout)
    requires Keeps(fan, r)
    ensures Keeps(fan, RelayChunk(r, id, len, total, now, failed, fan).room)
  {
    var r1 := ChargeChunk(r, id, now);
    UpdateKeeps(fan, r, id, Beat(now));
    OutsideKeeps(fan, r.(conns := Update(r.conns, id, Beat(now))), r1);
    FanKeeps(r1, None, failed, fan);
  }

  lemma FanKeeps(r: Room.RoomState, exclude: Option<ConnId>, failed: set<ConnId>, fan: Fanout)
    requires Keeps(fan, r)
    ensures Keeps(fan, Fan(r, exclude, failed, fan).room)
  {
    match fan
    case AsWritten => Room.BroadcastAsWrittenKeepsInv(r, exclude, failed);
    case Corrected => Room.BroadcastKeepsInv(r, exclude, failed);
  }

  lemma UpdateKeeps(fan: Fanout, r: Room.RoomState, id: ConnId, p: Patch)
    requires Keeps(fan, r)
    ensures Keeps(fan, r.(conns := Update(r.conns, id, p)))
  {
    match fan
    case AsWritten => UpdateKeepsInvAsWritten(r, id, p);
    case Corrected => UpdateKeepsInv(r, id, p);
  }

  lemma UpdateKeepsInvAsWritten(r: Room.RoomState, id: ConnId, p: Patch)
    requires Room.InvAsWritten(r)
    ensures Room.InvAsWritten(r.(conns := Update(r.conns, id, p)))
  {
  }

  lemma SlotsKeep(fan: Fanout, r: Room.RoomState, active: set<ConnId>)
    requires Keeps(fan, r) && |active| <= FileSlot.MaxConcurrentFileTransfers
    ensures Keeps(fan, r.(activeTransfers := active))
  {
  }

  /** Neither invariant depends on the limiter stores, the size violations or the timers. */
  lemma OutsideKeeps(fan: Fanout, r: Room.RoomState, r': Room.RoomState)
    requires Keeps(fan, r)
    requires r'.conns == r.conns && r'.ipCount == r.ipCount && r'.activeTransfers == r.activeTransfers
    ensures Keeps(fan, r')
  {
  }

  /**
   As written, whenever a chat message is relayed and the send to some
   connection fails, that connection's address ends up counted more often
   than it has connections: the entry is deleted and the count left alone
   (the `message` case's send loop). The corrected relay keeps the counts
   exact (`HandleKeepsInv` with `Corrected`).
   */
  lemma ChatSendFailureLeaksIpCount(r: Room.RoomState, id: ConnId, m: Incoming, now: int, failed: set<ConnId>,
                                    e: Room.Entry)
    requires Room.Inv(r)
    requires m.size <= MaxMessageSize && m.frame.ChatMessage? && !SkewTooLarge(now, m.frame.timestamp)
    requires RateLimit.CheckMessage(r.messageRate, id, now).allowed
    requires e in r.conns && e.id in failed
    ensures var res := Handle(r, id, m, now, failed, AsWritten);
      && res.outcome.MessageRelayed?
      && e !in res.room.conns
      && Room.CountIp(res.room.conns, e.conn.ip) < GetOr(res.room.ipCount, e.conn.ip, 0)
      && !Room.IpExact(res.room.conns, res.room.ipCount)
  {
    var r1 := r.(messageRate := RateLimit.CheckMessage(r.messageRate, id, now).store);
    var keep := (x: Room.Entry) => !(Room.Recipient(x, None) && x.id in failed);
    var drop := (x: Room.Entry) => Room.Recipient(x, None) && x.id in failed;
    assert Handle(r, id, m, now, failed, AsWritten) == RelayChat(r1, m.frame.timestamp, now, failed, AsWritten);
    Room.FilterSplitsCountIp(r.conns, keep, drop, e.conn.ip);
    Room.CountIpMember(Room.Filter(r.conns, drop), e);
    assert GetOr(r.ipCount, e.conn.ip, 0) == Room.CountIp(r.conns, e.conn.ip);
  }

  /**
   A ping refreshes the sender's heartbeat: a connected sender that pings
   at `now` survives every heartbeat sweep up to 90 s later.
   */
  lemma PingKeepsAlive(r: Room.RoomState, id: ConnId, size: nat, now: int, later: int, failed: set<ConnId>, fan: Fanout)
    requires size <= MaxMessageSize && id in Room.Ids(r.conns)
    requires later <= now + Room.QuietTimeout
    ensures id in Room.Ids(Room.Sweep(Handle(r, id, Incoming(size, Ping), now, failed, fan).room, later).conns)
  {
    var r1 := Handle(r, id, Incoming(size, Ping), now, failed, fan).room;
    var c := Room.Find(r.conns, id).value;
    assert Room.Find(r1.conns, id) == Some(c.(lastHeartbeat := now));
    FindIn(r1.conns, id);
    var e := Room.Entry(id, c.(lastHeartbeat := now));
    assert e in Room.Sweep(r1, later).conns;
    Room.InIds(Room.Sweep(r1, later).conns, e);
  }

  /**
   Oversized frames are counted per connection and never reset: starting
   from no violations, the first two are refused with the socket left open
   and the third closes it with 1008.
   */
  lemma ThirdOversizeFrameCloses(r: Room.RoomState, id: ConnId, f1: Frame, f2: Frame, f3: Frame,
                                 s1: nat, s2: nat, s3: nat, t1: int, t2: int, t3: int, failed: set<ConnId>, fan: Fanout)
    requires id !in r.sizeViolations
    requires s1 > MaxMessageSize && s2 > MaxMessageSize && s3 > MaxMessageSize
    ensures var a := Handle(r, id, Incoming(s1, f1), t1, failed, fan);
      var b := Handle(a.room, id, Incoming(s2, f2), t2, failed, fan);
      var c := Handle(b.room, id, Incoming(s3, f3), t3, failed, fan);
      && a.outcome == TooLarge(1, None)
      && b.outcome == TooLarge(2, None)
      && c.outcome == TooLarge(3, Some(Room.PolicyViolation))
      && c.room == r.(sizeViolations := r.sizeViolations[id := 3])
  {
  }
}
