/**
 The per-room relay state machine of src/ChatRoom.js: the connection map,
 per-IP connection counts, the file-sender slot and the idle timer, with
 the transitions that change them — admission (`handleSession`), the
 duplicate-identity rule, the close and error handlers, `broadcast`, the
 heartbeat sweep and the idle teardown. Clocks are explicit `now`
 parameters; socket sends and closes appear only as their effect on state
 (who was kicked, who was delivered to).

 The connection map is a JavaScript `Map`, iterated in insertion order, so
 it is modelled as a sequence of entries with distinct ids.
 */
module Room {
  import opened Common
  import RateLimit
  import Validation
  import FileSlot

  type Ip = string
  type Key = seq<Byte>

  const MaxConnections := 30
  const MaxConnectionsPerIp := 5
  const RecentTimeout := 60000
  const QuietTimeout := 90000

  /** Close codes: policy violation and normal closure. */
  const PolicyViolation := 1008
  const NormalClosure := 1000

  datatype Conn = Conn(
    nickname: string,
    deviceId: Option<string>,
    sessionId: Option<string>,
    ip: Ip,
    lastHeartbeat: int,
    publicKey: Option<Key>,
    ecdhPublicKey: Option<Key>)

  datatype Entry = Entry(id: ConnId, conn: Conn)

  datatype RoomState = RoomState(
    conns: seq<Entry>,
    ipCount: map<Ip, int>,
    messageRate: RateLimit.Store,
    chunkRate: RateLimit.Store,
    sizeViolations: map<ConnId, nat>,
    activeTransfers: set<ConnId>,
    idleTimerArmed: bool,
    heartbeatRunning: bool)

  /** The state a fresh room object starts in. */
  function NewRoom(): (r: RoomState)
    ensures Inv(r)
  {
    RoomState([], map[], map[], map[], map[], {}, false, true)
  }

  datatype ErrorCode =
    | RoomFull | TooManyConnections | InvalidNickname | InvalidDeviceId | InvalidSessionId
    | NicknameInUse | MessageTooLarge | RateLimitExceeded | FileChunkRateLimit | ClockSkew

  datatype KickReason = Reconnection | NewDeviceLogin

  // ---------------------------------------------------------------------------
  // Queries over the ordered connection map
  // ---------------------------------------------------------------------------

  function Ids(cs: seq<Entry>): set<ConnId> {
    if |cs| == 0 then {} else {cs[0].id} + Ids(cs[1..])
  }

  /** `connections.get(id)`. */
  function Find(cs: seq<Entry>, id: ConnId): (r: Option<Conn>)
    ensures r.Some? <==> id in Ids(cs)
  {
    if |cs| == 0 then None
    else if cs[0].id == id then Some(cs[0].conn)
    else Find(cs[1..], id)
  }

  /** Number of connections from one address. */
  function CountIp(cs: seq<Entry>, ip: Ip): nat {
    if |cs| == 0 then 0 else (if cs[0].conn.ip == ip then 1 else 0) + CountIp(cs[1..], ip)
  }

  /** Number of connections using one nickname. */
  function CountNick(cs: seq<Entry>, nick: string): nat {
    if |cs| == 0 then 0
    else (if cs[0].conn.nickname == nick then 1 else 0) + CountNick(cs[1..], nick)
  }

  predicate DistinctIds(cs: seq<Entry>) {
    |cs| == 0 || (cs[0].id !in Ids(cs[1..]) && DistinctIds(cs[1..]))
  }

  /** A nickname is unique within a room at any instant. */
  predicate UniqueNicknames(cs: seq<Entry>) {
    |cs| == 0 || (CountNick(cs[1..], cs[0].conn.nickname) == 0 && UniqueNicknames(cs[1..]))
  }

  /** Entries for which `keep` holds, in their original order. */
  function Filter(cs: seq<Entry>, keep: Entry -> bool): (r: seq<Entry>)
    ensures |r| <= |cs|
    ensures forall e :: e in r <==> e in cs && keep(e)
  {
    if |cs| == 0 then []
    else (if keep(cs[0]) then [cs[0]] else []) + Filter(cs[1..], keep)
  }

  // ---------------------------------------------------------------------------
  // Per-IP bookkeeping
  // ---------------------------------------------------------------------------

  /**
   The decrement applied when a connection from `ip` goes away: the entry is
   deleted when the count was at most one, otherwise lowered by one.
   */
  function ReleaseIp(m: map<Ip, int>, ip: Ip): (r: map<Ip, int>)
    ensures GetOr(m, ip, 0) >= 1 ==> GetOr(r, ip, 0) == GetOr(m, ip, 0) - 1
    ensures forall x :: x != ip ==> (x in r <==> x in m) && (x in r ==> r[x] == m[x])
    ensures (forall x :: x in m ==> m[x] > 0) ==> (forall x :: x in r ==> r[x] > 0)
  {
    var count := GetOr(m, ip, 0);
    if count <= 1 then m - {ip} else m[ip := count - 1]
  }

  /** The increment applied when a connection from `ip` is admitted. */
  function AcquireIp(m: map<Ip, int>, ip: Ip): (r: map<Ip, int>)
    ensures GetOr(r, ip, 0) == GetOr(m, ip, 0) + 1
    ensures forall x :: x != ip ==> GetOr(r, x, 0) == GetOr(m, x, 0)
    ensures (forall x :: x in m ==> m[x] > 0) ==> (forall x :: x in r ==> r[x] > 0)
  {
    m[ip := GetOr(m, ip, 0) + 1]
  }

  /** `ReleaseIp` for each removed entry in turn. */
  function ReleaseAll(m: map<Ip, int>, removed: seq<Entry>): map<Ip, int> {
    if |removed| == 0 then m else ReleaseAll(ReleaseIp(m, removed[0].conn.ip), removed[1..])
  }

  /** The stored count of every address equals its number of live connections. */
  ghost predicate IpExact(cs: seq<Entry>, m: map<Ip, int>) {
    && (forall ip :: GetOr(m, ip, 0) == CountIp(cs, ip))
    && (forall ip :: ip in m ==> m[ip] > 0)
  }

  /** Every room invariant the relay is meant to keep. */
  ghost predicate Inv(r: RoomState) {
    && DistinctIds(r.conns)
    && UniqueNicknames(r.conns)
    && IpExact(r.conns, r.ipCount)
    && |r.conns| <= MaxConnections
    && (forall ip :: CountIp(r.conns, ip) <= MaxConnectionsPerIp)
    && |r.activeTransfers| <= FileSlot.MaxConcurrentFileTransfers
  }

  /** Every stored count covers at least the live connections from its address. */
  ghost predicate IpCovers(cs: seq<Entry>, m: map<Ip, int>) {
    && (forall ip :: CountIp(cs, ip) <= GetOr(m, ip, 0))
    && (forall ip :: ip in m ==> m[ip] > 0)
  }

  /**
   What the code as written still keeps: `Inv` with exact address counts
   weakened to covering ones. Leaked counts only ever refuse joins; they
   never let an address or the room exceed its cap.
   */
  ghost predicate InvAsWritten(r: RoomState) {
    && DistinctIds(r.conns)
    && UniqueNicknames(r.conns)
    && IpCovers(r.conns, r.ipCount)
    && |r.conns| <= MaxConnections
    && (forall ip :: CountIp(r.conns, ip) <= MaxConnectionsPerIp)
    && |r.activeTransfers| <= FileSlot.MaxConcurrentFileTransfers
  }

  // ---------------------------------------------------------------------------
  // Admission
  // ---------------------------------------------------------------------------

  /** Query-string parameters of a join, and the `CF-Connecting-IP` header. */
  datatype JoinRequest = JoinRequest(
    nickname: Option<string>,
    deviceId: Option<string>,
    sessionId: Option<string>,
    ip: Option<string>)

  /** `param || fallback`: a missing or empty parameter takes the fallback. */
  function OrDefault(p: Option<string>, fallback: string): string {
    if p.None? || p.value == "" then fallback else p.value
  }

  /** `param || null`. */
  function OrNull(p: Option<string>): (r: Option<string>)
    ensures r.Some? ==> r.value != ""
  {
    if p.None? || p.value == "" then None else p
  }

  function Nickname(q: JoinRequest): string {
    OrDefault(q.nickname, "Anonymous")
  }

  function ClientIp(q: JoinRequest): Ip {
    OrDefault(q.ip, "unknown")
  }

  /**
   The ordered admission gates: room full (30 or more), then this address
   already holding 5, then the nickname, then a present but malformed
   device id, then a present but malformed session id. The first failing
   gate picks the error.
   */
  function Gate(r: RoomState, q: JoinRequest): (e: Option<ErrorCode>)
    ensures e == Some(RoomFull) <==> |r.conns| >= MaxConnections
    ensures e == Some(TooManyConnections) <==>
      |r.conns| < MaxConnections && GetOr(r.ipCount, ClientIp(q), 0) >= MaxConnectionsPerIp
    ensures e == Some(InvalidNickname) <==>
      && |r.conns| < MaxConnections && GetOr(r.ipCount, ClientIp(q), 0) < MaxConnectionsPerIp
      && Validation.ValidateNickname(Nickname(q)) != Validation.ValidNickname
    ensures e == Some(InvalidDeviceId) <==>
      && |r.conns| < MaxConnections && GetOr(r.ipCount, ClientIp(q), 0) < MaxConnectionsPerIp
      && Validation.ValidateNickname(Nickname(q)) == Validation.ValidNickname
      && OrNull(q.deviceId).Some? && !Validation.ValidateUuid(OrNull(q.deviceId).value)
    ensures e == Some(InvalidSessionId) <==>
      && |r.conns| < MaxConnections && GetOr(r.ipCount, ClientIp(q), 0) < MaxConnectionsPerIp
      && Validation.ValidateNickname(Nickname(q)) == Validation.ValidNickname
      && (OrNull(q.deviceId).Some? ==> Validation.ValidateUuid(OrNull(q.deviceId).value))
      && OrNull(q.sessionId).Some? && !Validation.ValidateUuid(OrNull(q.sessionId).value)
    ensures e == None <==>
      && |r.conns| < MaxConnections && GetOr(r.ipCount, ClientIp(q), 0) < MaxConnectionsPerIp
      && Validation.ValidateNickname(Nickname(q)) == Validation.ValidNickname
      && (OrNull(q.deviceId).Some? ==> Validation.ValidateUuid(OrNull(q.deviceId).value))
      && (OrNull(q.sessionId).Some? ==> Validation.ValidateUuid(OrNull(q.sessionId).value))
    ensures e.Some? ==> e.value in {RoomFull, TooManyConnections, InvalidNickname, InvalidDeviceId, InvalidSessionId}
  {
    var dev := OrNull(q.deviceId);
    var sess := OrNull(q.sessionId);
    if |r.conns| >= MaxConnections then Some(RoomFull)
    else if GetOr(r.ipCount, ClientIp(q), 0) >= MaxConnectionsPerIp then Some(TooManyConnections)
    else if Validation.ValidateNickname(Nickname(q)) != Validation.ValidNickname then Some(InvalidNickname)
    else if dev.Some? && !Validation.ValidateUuid(dev.value) then Some(InvalidDeviceId)
    else if sess.Some? && !Validation.ValidateUuid(sess.value) then Some(InvalidSessionId)
    else None
  }

  datatype Decision = KickOld(reason: KickReason) | RejectNew

  /**
   The duplicate-identity rule for an existing connection with the joining
   nickname: same device and same session kicks the old one as a
   reconnection; same device, other session rejects the newcomer; any other
   device kicks the old one as a login elsewhere. A missing device or
   session id of the newcomer never counts as "same".
   */
  function Decide(existing: Conn, deviceId: Option<string>, sessionId: Option<string>): (d: Decision)
    ensures d == KickOld(Reconnection) <==>
      deviceId.Some? && existing.deviceId == deviceId && sessionId.Some? && existing.sessionId == sessionId
    ensures d == RejectNew <==>
      deviceId.Some? && existing.deviceId == deviceId && !(sessionId.Some? && existing.sessionId == sessionId)
    ensures d == KickOld(NewDeviceLogin) <==> !(deviceId.Some? && existing.deviceId == deviceId)
  {
    var sameDevice := deviceId.Some? && existing.deviceId == deviceId;
    var sameSession := sessionId.Some? && existing.sessionId == sessionId;
    if sameDevice && sameSession then KickOld(Reconnection)
    else if sameDevice then RejectNew
    else KickOld(NewDeviceLogin)
  }

  /**
   Result of the scan over existing connections: what remains in the map,
   who was kicked (in scan order), and whether the scan stopped on a
   rejection.
   */
  datatype Resolution = Resolution(kept: seq<Entry>, kicked: seq<Entry>, conflict: bool)

  /**
   The duplicate scan of `handleSession`, in map order. A kick deletes the
   old entry and the scan goes on; a rejection stops the scan, leaving
   earlier kicks in effect.
   */
  function Resolve(cs: seq<Entry>, nick: string, deviceId: Option<string>, sessionId: Option<string>)
    : (res: Resolution)
    ensures forall e :: e in res.kicked ==>
      e in cs && e.conn.nickname == nick && Decide(e.conn, deviceId, sessionId).KickOld?
    ensures forall x :: CountIp(cs, x) == CountIp(res.kept, x) + CountIp(res.kicked, x)
    ensures forall n :: CountNick(res.kept, n) <= CountNick(cs, n)
    ensures forall e :: e in res.kept ==> e in cs
    ensures Ids(res.kept) <= Ids(cs)
    ensures !res.conflict ==> CountNick(res.kept, nick) == 0
    ensures !res.conflict ==> res.kept == Filter(cs, (e: Entry) => e.conn.nickname != nick)
    ensures !res.conflict ==> res.kicked == Filter(cs, (e: Entry) => e.conn.nickname == nick)
    ensures |res.kept| <= |cs|
  {
    if |cs| == 0 then Resolution([], [], false)
    else
      var e := cs[0];
      var rest := Resolve(cs[1..], nick, deviceId, sessionId);
      assert cs == [e] + cs[1..];
      if e.conn.nickname != nick then
        Resolution([e] + rest.kept, rest.kicked, rest.conflict)
      else if Decide(e.conn, deviceId, sessionId) == RejectNew then
        Resolution(cs, [], true)
      else
        Resolution(rest.kept, [e] + rest.kicked, rest.conflict)
  }

  /** With unique nicknames a rejecting scan has kicked nobody and left the map as it was. */
  lemma {:induction false} ConflictLeavesMapUntouched(cs: seq<Entry>, nick: string,
                                                     deviceId: Option<string>, sessionId: Option<string>)
    requires UniqueNicknames(cs)
    requires Resolve(cs, nick, deviceId, sessionId).conflict
    ensures Resolve(cs, nick, deviceId, sessionId).kept == cs
    ensures Resolve(cs, nick, deviceId, sessionId).kicked == []
  {
    var e := cs[0];
    if e.conn.nickname != nick {
      ConflictLeavesMapUntouched(cs[1..], nick, deviceId, sessionId);
      assert [e] + cs[1..] == cs;
    } else if Decide(e.conn, deviceId, sessionId) != RejectNew {
      NoNickNoConflict(cs[1..], nick, deviceId, sessionId);
      assert false;
    }
  }

  lemma {:induction false} NoNickNoConflict(cs: seq<Entry>, nick: string,
                                            deviceId: Option<string>, sessionId: Option<string>)
    requires CountNick(cs, nick) == 0
    ensures !Resolve(cs, nick, deviceId, sessionId).conflict
  {
    if |cs| > 0 {
      NoNickNoConflict(cs[1..], nick, deviceId, sessionId);
    }
  }

  /** The connection record stored for an admitted join. */
  function NewConn(q: JoinRequest, now: int): Conn {
    Conn(Nickname(q), OrNull(q.deviceId), OrNull(q.sessionId), ClientIp(q), now, None, None)
  }

  /**
   Outcome of a join attempt: the room afterwards, the connections kicked on
   the way (each with its reason given by `Decide`), and the error sent to
   the newcomer when it was not admitted.
   */
  datatype JoinResult = JoinResult(room: RoomState, kicked: seq<Entry>, error: Option<ErrorCode>)

  /**
   `handleSession` as written: a kicked connection is deleted from the map
   without lowering its address's count, and the newcomer's address gets
   the count read before the scan plus one.
   */
  function JoinAsWritten(r: RoomState, q: JoinRequest, id: ConnId, now: int): (res: JoinResult)
    ensures Gate(r, q).Some? ==> res.error == Gate(r, q)
    ensures res.error == Some(NicknameInUse) <==> Gate(r, q).None? && Resolve(r.conns, Nickname(q), OrNull(q.deviceId), OrNull(q.sessionId)).conflict
    ensures res.error.None? <==> Gate(r, q).None? && !Resolve(r.conns, Nickname(q), OrNull(q.deviceId), OrNull(q.sessionId)).conflict
    ensures res.error.Some? && res.error != Some(NicknameInUse) ==> res.room == r && res.kicked == []
    ensures res.error == Some(NicknameInUse) ==>
      res.room == r.(conns := Resolve(r.conns, Nickname(q), OrNull(q.deviceId), OrNull(q.sessionId)).kept) && res.kicked == Resolve(r.conns, Nickname(q), OrNull(q.deviceId), OrNull(q.sessionId)).kicked
    ensures res.error.None? ==>
      && res.room.ipCount == AcquireIp(r.ipCount, ClientIp(q))
      && res.room.conns == Resolve(r.conns, Nickname(q), OrNull(q.deviceId), OrNull(q.sessionId)).kept
                           + [Entry(id, NewConn(q, now))]
      && res.kicked == Resolve(r.conns, Nickname(q), OrNull(q.deviceId), OrNull(q.sessionId)).kicked
  {
    match Gate(r, q)
    case Some(code) => JoinResult(r, [], Some(code))
    case None =>
      var res := Resolve(r.conns, Nickname(q), OrNull(q.deviceId), OrNull(q.sessionId));
      if res.conflict then
        JoinResult(r.(conns := res.kept), res.kicked, Some(NicknameInUse))
      else
        var ip := ClientIp(q);
        JoinResult(
          r.(conns := res.kept + [Entry(id, NewConn(q, now))],
             idleTimerArmed := false,
             ipCount := AcquireIp(r.ipCount, ip)),
          res.kicked, None)
  }

  /**
   `handleSession` with the per-IP count of each kicked connection released
   at the kick, as the heartbeat sweep does for the connections it removes.
   A rejected join leaves the room untouched; an admitted one removes every
   same-nickname connection, appends the newcomer, and leaves its nickname
   exactly once in the room.
   */
  function Join(r: RoomState, q: JoinRequest, id: ConnId, now: int): (res: JoinResult)
    requires UniqueNicknames(r.conns)
    ensures Gate(r, q).Some? ==> res.error == Gate(r, q)
    ensures res.error == Some(NicknameInUse) <==> Gate(r, q).None? && Resolve(r.conns, Nickname(q), OrNull(q.deviceId), OrNull(q.sessionId)).conflict
    ensures res.error.Some? ==> res.room == r && res.kicked == []
    ensures res.error.None? <==> Gate(r, q).None? && !Resolve(r.conns, Nickname(q), OrNull(q.deviceId), OrNull(q.sessionId)).conflict
    ensures res.error.None? ==>
      && res.room.conns == Filter(r.conns, (e: Entry) => e.conn.nickname != Nickname(q)) + [Entry(id, NewConn(q, now))]
      && res.kicked == Filter(r.conns, (e: Entry) => e.conn.nickname == Nickname(q))
      && CountNick(res.room.conns, Nickname(q)) == 1
      && !res.room.idleTimerArmed
    ensures res.error == Some(NicknameInUse) ==>
      exists e :: e in r.conns && e.conn.nickname == Nickname(q)
        && Decide(e.conn, OrNull(q.deviceId), OrNull(q.sessionId)) == RejectNew
  {
    match Gate(r, q)
    case Some(code) => JoinResult(r, [], Some(code))
    case None =>
      var nick := Nickname(q);
      var res := Resolve(r.conns, nick, OrNull(q.deviceId), OrNull(q.sessionId));
      if res.conflict then
        ConflictLeavesMapUntouched(r.conns, nick, OrNull(q.deviceId), OrNull(q.sessionId));
        ConflictHasWitness(r.conns, nick, OrNull(q.deviceId), OrNull(q.sessionId));
        JoinResult(r, [], Some(NicknameInUse))
      else
        var ip := ClientIp(q);
        var released := ReleaseAll(r.ipCount, res.kicked);
        var conns := res.kept + [Entry(id, NewConn(q, now))];
        CountNickAppend(res.kept, Entry(id, NewConn(q, now)), nick);
        JoinResult(
          r.(conns := conns,
             idleTimerArmed := false,
             ipCount := AcquireIp(released, ip)),
          res.kicked, None)
  }

  lemma {:induction false} ConflictHasWitness(cs: seq<Entry>, nick: string,
                                              deviceId: Option<string>, sessionId: Option<string>)
    requires Resolve(cs, nick, deviceId, sessionId).conflict
    ensures exists e :: e in cs && e.conn.nickname == nick && Decide(e.conn, deviceId, sessionId) == RejectNew
  {
    var e := cs[0];
    if e.conn.nickname == nick && Decide(e.conn, deviceId, sessionId) == RejectNew {
      assert e in cs;
    } else {
      ConflictHasWitness(cs[1..], nick, deviceId, sessionId);
      var w :| w in cs[1..] && w.conn.nickname == nick && Decide(w.conn, deviceId, sessionId) == RejectNew;
      assert w in cs;
    }
  }

  /**
   Reasons announced to the kicked connections, in kick order: `reconnection`
   exactly when the newcomer's device id and session id are both present and
   equal to the kicked connection's, `new_device_login` otherwise.
   */
  function KickReasons(kicked: seq<Entry>, q: JoinRequest): (rs: seq<KickReason>)
    ensures |rs| == |kicked|
    ensures forall i :: 0 <= i < |kicked| ==>
      (rs[i] == Reconnection <==>
        && OrNull(q.deviceId).Some? && kicked[i].conn.deviceId == OrNull(q.deviceId)
        && OrNull(q.sessionId).Some? && kicked[i].conn.sessionId == OrNull(q.sessionId))
  {
    seq(|kicked|, i requires 0 <= i < |kicked| =>
      match Decide(kicked[i].conn, OrNull(q.deviceId), OrNull(q.sessionId))
      case KickOld(reason) => reason
      case RejectNew => NewDeviceLogin)
  }

  /**
   Every connection an admitted join kicks held the joining nickname, and it
   is told `new_device_login` exactly when the newcomer's device id is
   missing or differs from its own: a same-device connection is only ever
   kicked as a reconnection from the same tab.
   */
  lemma KickedAreToldWhy(r: RoomState, q: JoinRequest, id: ConnId, now: int)
    requires UniqueNicknames(r.conns)
    ensures var res := Join(r, q, id, now);
      var rs := KickReasons(res.kicked, q);
      forall i :: 0 <= i < |res.kicked| ==>
        && res.kicked[i] in r.conns && res.kicked[i].conn.nickname == Nickname(q)
        && (rs[i] == NewDeviceLogin <==>
              !(OrNull(q.deviceId).Some? && res.kicked[i].conn.deviceId == OrNull(q.deviceId)))
  {
    var kicked := Join(r, q, id, now).kicked;
    var rv := Resolve(r.conns, Nickname(q), OrNull(q.deviceId), OrNull(q.sessionId));
    JoinKicksWhatResolveKicks(r, q, id, now);
    forall i | 0 <= i < |kicked|
      ensures && kicked[i] in r.conns && kicked[i].conn.nickname == Nickname(q)
              && (KickReasons(kicked, q)[i] == NewDeviceLogin <==>
                    !(OrNull(q.deviceId).Some? && kicked[i].conn.deviceId == OrNull(q.deviceId)))
    {
      assert kicked[i] in rv.kicked;
      KickOldReason(kicked, q, i);
    }
  }

  lemma JoinKicksWhatResolveKicks(r: RoomState, q: JoinRequest, id: ConnId, now: int)
    requires UniqueNicknames(r.conns)
    ensures var kicked := Join(r, q, id, now).kicked;
      kicked == [] || kicked == Resolve(r.conns, Nickname(q), OrNull(q.deviceId), OrNull(q.sessionId)).kicked
  {
  }

  lemma KickOldReason(kicked: seq<Entry>, q: JoinRequest, i: nat)
    requires i < |kicked| && Decide(kicked[i].conn, OrNull(q.deviceId), OrNull(q.sessionId)).KickOld?
    ensures KickReasons(kicked, q)[i] == NewDeviceLogin <==>
      !(OrNull(q.deviceId).Some? && kicked[i].conn.deviceId == OrNull(q.deviceId))
  {
  }

  /**
   Public keys sent to a newcomer after `connected`: every other connection
   that has published a signing key, in map order.
   */
  function KeysForNewcomer(cs: seq<Entry>, id: ConnId): (r: seq<Entry>)
    ensures forall e :: e in r <==> e in cs && e.id != id && e.conn.publicKey.Some?
  {
    Filter(cs, (e: Entry) => e.id != id && e.conn.publicKey.Some?)
  }

  // ---------------------------------------------------------------------------
  // Removal: close, error, broadcast, heartbeat sweep, idle teardown
  // ---------------------------------------------------------------------------

  /** `checkIdleCleanup`: arm the idle timer once the room is empty. */
  function CheckIdle(r: RoomState): (r': RoomState)
    ensures r'.idleTimerArmed <==> r.idleTimerArmed || |r.conns| == 0
    ensures r' == r.(idleTimerArmed := r'.idleTimerArmed)
  {
    if |r.conns| == 0 && !r.idleTimerArmed then r.(idleTimerArmed := true) else r
  }

  /**
   The `close` handler: the address count is released when the connection is
   still in the map, the file slot is released, the entry is deleted and the
   idle timer armed if the room became empty. Rate-limit lists and size
   violation counts are left for the periodic cleanup.
   */
  function OnClose(r: RoomState, id: ConnId): (r': RoomState)
    ensures id !in Ids(r'.conns) && id !in r'.activeTransfers
    ensures forall e :: e in r'.conns <==> e in r.conns && e.id != id
    ensures r'.messageRate == r.messageRate && r'.chunkRate == r.chunkRate
  {
    var ipCount := match Find(r.conns, id)
      case Some(c) => ReleaseIp(r.ipCount, c.ip)
      case None => r.ipCount;
    var conns := Filter(r.conns, (e: Entry) => e.id != id);
    NotInFilter(r.conns, id);
    CheckIdle(r.(conns := conns, ipCount := ipCount,
                 activeTransfers := FileSlot.Release(r.activeTransfers, id)))
  }

  /** The `error` handler as written: slot released and entry deleted, address count untouched. */
  function OnErrorAsWritten(r: RoomState, id: ConnId): (r': RoomState)
    ensures r'.ipCount == r.ipCount
    ensures forall e :: e in r'.conns <==> e in r.conns && e.id != id
  {
    r.(conns := Filter(r.conns, (e: Entry) => e.id != id),
       activeTransfers := FileSlot.Release(r.activeTransfers, id))
  }

  /** The `error` handler with the address count released like the close handler does. */
  function OnError(r: RoomState, id: ConnId): (r': RoomState)
    ensures forall e :: e in r'.conns <==> e in r.conns && e.id != id
    ensures id !in r'.activeTransfers
  {
    var ipCount := match Find(r.conns, id)
      case Some(c) => ReleaseIp(r.ipCount, c.ip)
      case None => r.ipCount;
    r.(conns := Filter(r.conns, (e: Entry) => e.id != id),
       ipCount := ipCount,
       activeTransfers := FileSlot.Release(r.activeTransfers, id))
  }

  lemma {:induction false} NotInFilter(cs: seq<Entry>, id: ConnId)
    ensures id !in Ids(Filter(cs, (e: Entry) => e.id != id))
  {
    if |cs| > 0 {
      NotInFilter(cs[1..], id);
      FilterUnfold(cs, (e: Entry) => e.id != id);
    }
  }

  /** A recipient of a broadcast: every connection but the excluded one. */
  predicate Recipient(e: Entry, exclude: Option<ConnId>) {
    exclude != Some(e.id)
  }

  datatype BroadcastResult = BroadcastResult(room: RoomState, delivered: seq<ConnId>)

  function IdsOf(cs: seq<Entry>): (ids: seq<ConnId>)
    ensures |ids| == |cs|
    ensures forall i :: 0 <= i < |cs| ==> ids[i] == cs[i].id
  {
    seq(|cs|, i requires 0 <= i < |cs| => cs[i].id)
  }

  /**
   `broadcast` as written: every recipient is sent the message; a recipient
   whose send fails (`failed`, an input standing for socket errors) is
   deleted from the map, without releasing its address count.
   */
  function BroadcastAsWritten(r: RoomState, exclude: Option<ConnId>, failed: set<ConnId>)
    : (res: BroadcastResult)
    ensures res.room.ipCount == r.ipCount
    ensures forall e :: e in res.room.conns <==> e in r.conns && !(Recipient(e, exclude) && e.id in failed)
    ensures forall e :: e in r.conns ==> (e.id in res.delivered <==> Recipient(e, exclude) && e.id !in failed)
    ensures res.room.(conns := r.conns) == r
  {
    DeliveredIds(r.conns, Filter(r.conns, (e: Entry) => Recipient(e, exclude) && e.id !in failed), exclude, failed);
    BroadcastResult(
      r.(conns := Filter(r.conns, (e: Entry) => !(Recipient(e, exclude) && e.id in failed))),
      IdsOf(Filter(r.conns, (e: Entry) => Recipient(e, exclude) && e.id !in failed)))
  }

  /**
   `broadcast` with failed recipients removed the way the heartbeat sweep
   removes connections (address count released). Delivery goes, in map
   order, to exactly the recipients whose send succeeded; the excluded
   sender is never removed.
   */
  function Broadcast(r: RoomState, exclude: Option<ConnId>, failed: set<ConnId>): (res: BroadcastResult)
    ensures forall e :: e in res.room.conns <==> e in r.conns && !(Recipient(e, exclude) && e.id in failed)
    ensures forall e :: e in r.conns ==> (e.id in res.delivered <==> Recipient(e, exclude) && e.id !in failed)
    ensures forall id :: id in res.delivered ==> id in Ids(r.conns) && Some(id) != exclude && id !in failed
    ensures res.room.(conns := r.conns, ipCount := r.ipCount) == r
  {
    var dropped := Filter(r.conns, (e: Entry) => Recipient(e, exclude) && e.id in failed);
    var delivered := Filter(r.conns, (e: Entry) => Recipient(e, exclude) && e.id !in failed);
    DeliveredIds(r.conns, delivered, exclude, failed);
    BroadcastResult(
      r.(conns := Filter(r.conns, (e: Entry) => !(Recipient(e, exclude) && e.id in failed)),
         ipCount := ReleaseAll(r.ipCount, dropped)),
      IdsOf(delivered))
  }

  lemma DeliveredIds(cs: seq<Entry>, delivered: seq<Entry>, exclude: Option<ConnId>, failed: set<ConnId>)
    requires delivered == Filter(cs, (e: Entry) => Recipient(e, exclude) && e.id !in failed)
    ensures forall e :: e in cs ==> (Recipient(e, exclude) && e.id !in failed ==> e.id in IdsOf(delivered))
    ensures forall id :: id in IdsOf(delivered) ==> id in Ids(cs) && Some(id) != exclude && id !in failed
  {
    var ids := IdsOf(delivered);
    forall e | e in cs && Recipient(e, exclude) && e.id !in failed
      ensures e.id in ids
    {
      var i :| 0 <= i < |delivered| && delivered[i] == e;
      assert ids[i] == e.id;
    }
    forall id | id in ids
      ensures id in Ids(cs) && Some(id) != exclude && id !in failed
    {
      var i :| 0 <= i < |ids| && ids[i] == id;
      assert delivered[i] in cs;
      InIds(cs, delivered[i]);
    }
  }

  lemma {:induction false} InIds(cs: seq<Entry>, e: Entry)
    requires e in cs
    ensures e.id in Ids(cs)
  {
    if cs[0] != e {
      InIds(cs[1..], e);
    }
  }

  /**
   The two-tier timeout of the heartbeat sweep: 90 s once the connection has
   been quiet for more than 60 s, 60 s otherwise. The 60 s tier can never
   fire, so a connection times out iff it has been silent for more than 90 s.
   */
  function TimedOut(sinceLastBeat: int): (stale: bool)
    ensures stale <==> sinceLastBeat > QuietTimeout
  {
    var timeout := if sinceLastBeat > RecentTimeout then QuietTimeout else RecentTimeout;
    sinceLastBeat > timeout
  }

  predicate Stale(now: int, e: Entry) {
    TimedOut(now - e.conn.lastHeartbeat)
  }

  /**
   One tick of the heartbeat sweep: remove every connection silent for more
   than 90 s, release each one's address count, then arm the idle timer if
   the room became empty. Slots and rate-limit lists are released by the
   close handler that the forced close triggers.
   */
  function Sweep(r: RoomState, now: int): (r': RoomState)
    ensures r.heartbeatRunning ==>
      forall e :: e in r'.conns <==> e in r.conns && now - e.conn.lastHeartbeat <= QuietTimeout
    ensures r'.activeTransfers == r.activeTransfers
  {
    if !r.heartbeatRunning then r
    else
      var stale := Filter(r.conns, (e: Entry) => Stale(now, e));
      CheckIdle(r.(conns := Filter(r.conns, (e: Entry) => !Stale(now, e)),
                   ipCount := ReleaseAll(r.ipCount, stale)))
  }

  /**
   The idle timer firing 30 minutes after the room became empty: connections,
   message rate lists, address counts and file slots are cleared and the
   heartbeat interval is stopped; the file-chunk rate lists and size
   violation counts are not cleared, and the timer handle is never reset.
   */
  function IdleTimerFires(r: RoomState): (r': RoomState)
    ensures r.idleTimerArmed ==>
      && r'.conns == [] && r'.ipCount == map[] && r'.activeTransfers == {}
      && r'.messageRate == map[] && !r'.heartbeatRunning && r'.chunkRate == r.chunkRate
    ensures !r.idleTimerArmed ==> r' == r
  {
    if !r.idleTimerArmed then r
    else r.(conns := [], messageRate := map[], ipCount := map[], activeTransfers := {},
            heartbeatRunning := false)
  }

  // ---------------------------------------------------------------------------
  // Invariant preservation
  // ---------------------------------------------------------------------------

  lemma {:induction false} CountIpMember(cs: seq<Entry>, e: Entry)
    requires e in cs
    ensures CountIp(cs, e.conn.ip) >= 1
  {
    if cs[0] != e {
      CountIpMember(cs[1..], e);
    }
  }

  lemma {:induction false} CountIpAppend(a: seq<Entry>, b: seq<Entry>, ip: Ip)
    ensures CountIp(a + b, ip) == CountIp(a, ip) + CountIp(b, ip)
  {
    if |a| > 0 {
      assert (a + b)[1..] == a[1..] + b;
      CountIpAppend(a[1..], b, ip);
    } else {
      assert a + b == b;
    }
  }

  lemma {:induction false} CountNickAppend(a: seq<Entry>, e: Entry, nick: string)
    ensures CountNick(a + [e], nick) == CountNick(a, nick) + (if e.conn.nickname == nick then 1 else 0)
  {
    if |a| > 0 {
      assert (a + [e])[1..] == a[1..] + [e];
      CountNickAppend(a[1..], e, nick);
    } else {
      assert a + [e] == [e];
    }
  }

  lemma {:induction false} IdsAppend(a: seq<Entry>, e: Entry)
    ensures Ids(a + [e]) == Ids(a) + {e.id}
  {
    if |a| > 0 {
      assert (a + [e])[1..] == a[1..] + [e];
      IdsAppend(a[1..], e);
    } else {
      assert a + [e] == [e];
    }
  }

  /** One step of `Filter`, with the head and tail of its result named. */
  lemma FilterUnfold(cs: seq<Entry>, keep: Entry -> bool)
    requires |cs| > 0
    ensures keep(cs[0]) ==>
      Filter(cs, keep)[0] == cs[0] && Filter(cs, keep)[1..] == Filter(cs[1..], keep)
    ensures !keep(cs[0]) ==> Filter(cs, keep) == Filter(cs[1..], keep)
  {
  }

  /** Filters by extensionally equal predicates agree. */
  lemma {:induction false} FilterExt(cs: seq<Entry>, f: Entry -> bool, g: Entry -> bool)
    requires forall e :: f(e) == g(e)
    ensures Filter(cs, f) == Filter(cs, g)
  {
    if |cs| > 0 {
      FilterExt(cs[1..], f, g);
    }
  }

  /** Splitting by a predicate and its complement partitions every address count. */
  lemma {:induction false} FilterSplitsCountIp(cs: seq<Entry>, keep: Entry -> bool, drop: Entry -> bool, ip: Ip)
    requires forall e :: drop(e) == !keep(e)
    ensures CountIp(cs, ip) == CountIp(Filter(cs, keep), ip) + CountIp(Filter(cs, drop), ip)
  {
    if |cs| > 0 {
      FilterSplitsCountIp(cs[1..], keep, drop, ip);
      FilterUnfold(cs, keep);
      FilterUnfold(cs, drop);
    }
  }

  lemma {:induction false} FilterCounts(cs: seq<Entry>, keep: Entry -> bool)
    ensures forall n :: CountNick(Filter(cs, keep), n) <= CountNick(cs, n)
    ensures forall ip :: CountIp(Filter(cs, keep), ip) <= CountIp(cs, ip)
    ensures Ids(Filter(cs, keep)) <= Ids(cs)
  {
    if |cs| > 0 {
      FilterCounts(cs[1..], keep);
      FilterUnfold(cs, keep);
    }
  }

  lemma {:induction false} FilterKeepsShape(cs: seq<Entry>, keep: Entry -> bool)
    requires DistinctIds(cs) && UniqueNicknames(cs)
    ensures DistinctIds(Filter(cs, keep)) && UniqueNicknames(Filter(cs, keep))
  {
    if |cs| > 0 {
      FilterKeepsShape(cs[1..], keep);
      FilterCounts(cs[1..], keep);
      FilterUnfold(cs, keep);
    }
  }

  lemma {:induction false} AppendKeepsShape(cs: seq<Entry>, e: Entry)
    requires DistinctIds(cs) && UniqueNicknames(cs)
    requires e.id !in Ids(cs) && CountNick(cs, e.conn.nickname) == 0
    ensures DistinctIds(cs + [e]) && UniqueNicknames(cs + [e])
  {
    if |cs| > 0 {
      assert (cs + [e])[1..] == cs[1..] + [e];
      AppendKeepsShape(cs[1..], e);
      IdsAppend(cs[1..], e);
      CountNickAppend(cs[1..], e, cs[0].conn.nickname);
    } else {
      assert cs + [e] == [e];
    }
  }

  /** Releasing the addresses of removed connections lowers each count by exactly their number. */
  lemma {:induction false} ReleaseAllCounts(m: map<Ip, int>, removed: seq<Entry>)
    requires forall ip :: GetOr(m, ip, 0) >= CountIp(removed, ip)
    requires forall ip :: ip in m ==> m[ip] > 0
    ensures forall ip :: GetOr(ReleaseAll(m, removed), ip, 0) == GetOr(m, ip, 0) - CountIp(removed, ip)
    ensures forall ip :: ip in ReleaseAll(m, removed) ==> ReleaseAll(m, removed)[ip] > 0
  {
    if |removed| > 0 {
      var ip0 := removed[0].conn.ip;
      var m' := ReleaseIp(m, ip0);
      assert GetOr(m, ip0, 0) >= 1;
      forall ip
        ensures GetOr(m', ip, 0) >= CountIp(removed[1..], ip)
        ensures GetOr(m', ip, 0) == GetOr(m, ip, 0) - (if ip == ip0 then 1 else 0)
      {
        assert GetOr(m, ip, 0) >= CountIp(removed, ip);
      }
      ReleaseAllCounts(m', removed[1..]);
      forall ip
        ensures GetOr(ReleaseAll(m, removed), ip, 0) == GetOr(m, ip, 0) - CountIp(removed, ip)
      {
        assert GetOr(ReleaseAll(m', removed[1..]), ip, 0) == GetOr(m', ip, 0) - CountIp(removed[1..], ip);
      }
    }
  }

  lemma RemovalKeepsIpExact(cs: seq<Entry>, m: map<Ip, int>, kept: seq<Entry>, removed: seq<Entry>)
    requires IpExact(cs, m)
    requires forall ip :: CountIp(cs, ip) == CountIp(kept, ip) + CountIp(removed, ip)
    ensures IpExact(kept, ReleaseAll(m, removed))
  {
    forall ip
      ensures GetOr(m, ip, 0) >= CountIp(removed, ip)
    {
      assert GetOr(m, ip, 0) == CountIp(cs, ip);
    }
    ReleaseAllCounts(m, removed);
    forall ip
      ensures GetOr(ReleaseAll(m, removed), ip, 0) == CountIp(kept, ip)
    {
      assert GetOr(m, ip, 0) == CountIp(cs, ip);
    }
  }

  /** Removing connections by any predicate, releasing their addresses, keeps the invariant. */
  lemma RemoveWhereKeepsInv(r: RoomState, keep: Entry -> bool, drop: Entry -> bool)
    requires Inv(r)
    requires forall e :: drop(e) == !keep(e)
    ensures Inv(r.(conns := Filter(r.conns, keep), ipCount := ReleaseAll(r.ipCount, Filter(r.conns, drop))))
  {
    var kept := Filter(r.conns, keep);
    var removed := Filter(r.conns, drop);
    forall ip
      ensures CountIp(r.conns, ip) == CountIp(kept, ip) + CountIp(removed, ip)
    {
      FilterSplitsCountIp(r.conns, keep, drop, ip);
    }
    RemovalKeepsIpExact(r.conns, r.ipCount, kept, removed);
    FilterKeepsShape(r.conns, keep);
    FilterCounts(r.conns, keep);
  }

  lemma CheckIdleKeepsInv(r: RoomState)
    requires Inv(r)
    ensures Inv(CheckIdle(r))
  {
  }

  /** The heartbeat sweep keeps every room invariant. */
  lemma SweepKeepsInv(r: RoomState, now: int)
    requires Inv(r)
    ensures Inv(Sweep(r, now))
  {
    if r.heartbeatRunning {
      RemoveWhereKeepsInv(r, (e: Entry) => !Stale(now, e), (e: Entry) => Stale(now, e));
    }
  }

  /** A broadcast with send failures keeps every room invariant. */
  lemma BroadcastKeepsInv(r: RoomState, exclude: Option<ConnId>, failed: set<ConnId>)
    requires Inv(r)
    ensures Inv(Broadcast(r, exclude, failed).room)
  {
    RemoveWhereKeepsInv(r, (e: Entry) => !(Recipient(e, exclude) && e.id in failed),
                        (e: Entry) => Recipient(e, exclude) && e.id in failed);
  }

  lemma {:induction false} FindIsFilter(cs: seq<Entry>, id: ConnId)
    requires DistinctIds(cs)
    ensures Find(cs, id).Some? ==> Filter(cs, (e: Entry) => e.id == id) == [Entry(id, Find(cs, id).value)]
    ensures Find(cs, id).None? ==> Filter(cs, (e: Entry) => e.id == id) == []
  {
    if |cs| > 0 {
      FindIsFilter(cs[1..], id);
      if cs[0].id == id {
        NotInFilterEq(cs[1..], id);
      }
    }
  }

  lemma {:induction false} NotInFilterEq(cs: seq<Entry>, id: ConnId)
    requires id !in Ids(cs)
    ensures Filter(cs, (e: Entry) => e.id == id) == []
  {
    if |cs| > 0 {
      NotInFilterEq(cs[1..], id);
    }
  }

  /** Removing one connection by id, releasing its address, keeps the invariant. */
  lemma RemoveOneKeepsInv(r: RoomState, id: ConnId)
    requires Inv(r)
    ensures var ipCount := match Find(r.conns, id)
              case Some(c) => ReleaseIp(r.ipCount, c.ip)
              case None => r.ipCount;
      Inv(r.(conns := Filter(r.conns, (e: Entry) => e.id != id), ipCount := ipCount))
  {
    var keep := (e: Entry) => e.id != id;
    var drop := (e: Entry) => e.id == id;
    RemoveWhereKeepsInv(r, keep, drop);
    FindIsFilter(r.conns, id);
    FilterExt(r.conns, drop, (e: Entry) => e.id == id);
    FilterExt(r.conns, keep, (e: Entry) => e.id != id);
    match Find(r.conns, id)
    case Some(c) =>
      assert ReleaseAll(r.ipCount, [Entry(id, c)]) == ReleaseIp(r.ipCount, c.ip);
    case None =>
  }

  /** The close handler keeps every room invariant. */
  lemma OnCloseKeepsInv(r: RoomState, id: ConnId)
    requires Inv(r)
    ensures Inv(OnClose(r, id))
  {
    RemoveOneKeepsInv(r, id);
    FileSlot.SubsetCard(FileSlot.Release(r.activeTransfers, id), r.activeTransfers);
  }

  /** The corrected error handler keeps every room invariant. */
  lemma OnErrorKeepsInv(r: RoomState, id: ConnId)
    requires Inv(r)
    ensures Inv(OnError(r, id))
  {
    RemoveOneKeepsInv(r, id);
    FileSlot.SubsetCard(FileSlot.Release(r.activeTransfers, id), r.activeTransfers);
  }

  /**
   An admitted or refused join keeps every room invariant, in particular
   exact per-address counts, the 30-connection cap and the 5-per-address cap.
   */
  lemma JoinKeepsInv(r: RoomState, q: JoinRequest, id: ConnId, now: int)
    requires Inv(r)
    requires id !in Ids(r.conns)
    ensures Inv(Join(r, q, id, now).room)
  {
    var res := Join(r, q, id, now);
    if res.error.None? {
      var nick := Nickname(q);
      var rs := Resolve(r.conns, nick, OrNull(q.deviceId), OrNull(q.sessionId));
      var e := Entry(id, NewConn(q, now));
      RemovalKeepsIpExact(r.conns, r.ipCount, rs.kept, rs.kicked);
      FilterKeepsShape(r.conns, (x: Entry) => x.conn.nickname != nick);
      AppendKeepsShape(rs.kept, e);
      assert GetOr(r.ipCount, e.conn.ip, 0) == CountIp(r.conns, e.conn.ip);
      AdmitOneKeepsIpExact(rs.kept, ReleaseAll(r.ipCount, rs.kicked), e);
    }
  }

  /** Appending an admitted connection and acquiring its address keeps the counts exact and capped. */
  lemma AdmitOneKeepsIpExact(kept: seq<Entry>, m: map<Ip, int>, e: Entry)
    requires IpExact(kept, m)
    requires forall x :: CountIp(kept, x) <= MaxConnectionsPerIp
    requires CountIp(kept, e.conn.ip) < MaxConnectionsPerIp
    ensures IpExact(kept + [e], AcquireIp(m, e.conn.ip))
    ensures forall x :: CountIp(kept + [e], x) <= MaxConnectionsPerIp
  {
    forall x
      ensures GetOr(AcquireIp(m, e.conn.ip), x, 0) == CountIp(kept + [e], x)
      ensures CountIp(kept + [e], x) <= MaxConnectionsPerIp
    {
      CountIpAppend(kept, [e], x);
      assert CountIp([e], x) == if x == e.conn.ip then 1 else 0;
    }
  }

  // ---------------------------------------------------------------------------
  // What the code as written keeps
  // ---------------------------------------------------------------------------

  lemma InvIsInvAsWritten(r: RoomState)
    requires Inv(r)
    ensures InvAsWritten(r)
  {
  }

  lemma RemovalKeepsIpCovers(cs: seq<Entry>, m: map<Ip, int>, kept: seq<Entry>, removed: seq<Entry>)
    requires IpCovers(cs, m)
    requires forall ip :: CountIp(cs, ip) == CountIp(kept, ip) + CountIp(removed, ip)
    ensures IpCovers(kept, ReleaseAll(m, removed))
  {
    ReleaseAllCounts(m, removed);
  }

  /** Removing connections by any predicate, releasing their addresses, keeps `InvAsWritten`. */
  lemma RemoveWhereKeepsInvAsWritten(r: RoomState, keep: Entry -> bool, drop: Entry -> bool)
    requires InvAsWritten(r)
    requires forall e :: drop(e) == !keep(e)
    ensures InvAsWritten(r.(conns := Filter(r.conns, keep), ipCount := ReleaseAll(r.ipCount, Filter(r.conns, drop))))
  {
    var kept := Filter(r.conns, keep);
    var removed := Filter(r.conns, drop);
    forall ip
      ensures CountIp(r.conns, ip) == CountIp(kept, ip) + CountIp(removed, ip)
    {
      FilterSplitsCountIp(r.conns, keep, drop, ip);
    }
    RemovalKeepsIpCovers(r.conns, r.ipCount, kept, removed);
    FilterKeepsShape(r.conns, keep);
    FilterCounts(r.conns, keep);
  }

  /** Dropping connections without touching the counts keeps `InvAsWritten`. */
  lemma DropWhereKeepsInvAsWritten(r: RoomState, keep: Entry -> bool)
    requires InvAsWritten(r)
    ensures InvAsWritten(r.(conns := Filter(r.conns, keep)))
  {
    FilterKeepsShape(r.conns, keep);
    FilterCounts(r.conns, keep);
  }

  /** A broadcast as written, whatever sends fail, keeps `InvAsWritten`. */
  lemma BroadcastAsWrittenKeepsInv(r: RoomState, exclude: Option<ConnId>, failed: set<ConnId>)
    requires InvAsWritten(r)
    ensures InvAsWritten(BroadcastAsWritten(r, exclude, failed).room)
  {
    DropWhereKeepsInvAsWritten(r, (e: Entry) => !(Recipient(e, exclude) && e.id in failed));
  }

  /** The error handler as written keeps `InvAsWritten`. */
  lemma OnErrorAsWrittenKeepsInv(r: RoomState, id: ConnId)
    requires InvAsWritten(r)
    ensures InvAsWritten(OnErrorAsWritten(r, id))
  {
    DropWhereKeepsInvAsWritten(r, (e: Entry) => e.id != id);
    FileSlot.SubsetCard(FileSlot.Release(r.activeTransfers, id), r.activeTransfers);
  }

  /** The close handler keeps `InvAsWritten` too. */
  lemma OnCloseKeepsInvAsWritten(r: RoomState, id: ConnId)
    requires InvAsWritten(r)
    ensures InvAsWritten(OnClose(r, id))
  {
    var keep := (e: Entry) => e.id != id;
    var drop := (e: Entry) => e.id == id;
    RemoveWhereKeepsInvAsWritten(r, keep, drop);
    FindIsFilter(r.conns, id);
    match Find(r.conns, id)
    case Some(c) =>
      assert ReleaseAll(r.ipCount, [Entry(id, c)]) == ReleaseIp(r.ipCount, c.ip);
    case None =>
    FileSlot.SubsetCard(FileSlot.Release(r.activeTransfers, id), r.activeTransfers);
  }

  /** The heartbeat sweep keeps `InvAsWritten`. */
  lemma SweepKeepsInvAsWritten(r: RoomState, now: int)
    requires InvAsWritten(r)
    ensures InvAsWritten(Sweep(r, now))
  {
    if r.heartbeatRunning {
      RemoveWhereKeepsInvAsWritten(r, (e: Entry) => !Stale(now, e), (e: Entry) => Stale(now, e));
    }
  }

  /**
   A join as written keeps `InvAsWritten`: whatever it kicks, the newcomer's
   address stays within five connections and the room within thirty.
   */
  lemma JoinAsWrittenKeepsInv(r: RoomState, q: JoinRequest, id: ConnId, now: int)
    requires InvAsWritten(r)
    requires id !in Ids(r.conns)
    ensures InvAsWritten(JoinAsWritten(r, q, id, now).room)
  {
    var res := JoinAsWritten(r, q, id, now);
    var nick := Nickname(q);
    var rs := Resolve(r.conns, nick, OrNull(q.deviceId), OrNull(q.sessionId));
    if Gate(r, q).None? {
      if rs.conflict {
        ConflictLeavesMapUntouched(r.conns, nick, OrNull(q.deviceId), OrNull(q.sessionId));
      } else {
        var ip := ClientIp(q);
        var e := Entry(id, NewConn(q, now));
        FilterKeepsShape(r.conns, (x: Entry) => x.conn.nickname != nick);
        AppendKeepsShape(rs.kept, e);
        forall x
          ensures CountIp(rs.kept + [e], x) <= GetOr(res.room.ipCount, x, 0)
          ensures CountIp(rs.kept + [e], x) <= MaxConnectionsPerIp
        {
          CountIpAppend(rs.kept, [e], x);
          assert CountIp([e], x) == if x == ip then 1 else 0;
          assert CountIp(r.conns, x) == CountIp(rs.kept, x) + CountIp(rs.kicked, x);
        }
      }
    }
  }

  // ---------------------------------------------------------------------------
  // The address-count leak of the code as written
  // ---------------------------------------------------------------------------

  /** One connection `c1`, nickname `bob`, no device id, from 1.2.3.4. */
  const BobAlone := RoomState([Entry("c1", Conn("bob", None, None, "1.2.3.4", 0, None, None))],
                              map["1.2.3.4" := 1], map[], map[], map[], {}, false, true)

  lemma BobAloneIsValid()
    ensures Inv(BobAlone)
  {
    forall ip
      ensures GetOr(BobAlone.ipCount, ip, 0) == CountIp(BobAlone.conns, ip)
    {
    }
  }

  /**
   Whenever a join as written kicks a connection, the count for the kicked
   connection's address ends up above the number of connections from it:
   the kicked entry is gone from the map but still counted, and the close
   event of its socket no longer finds it and cannot correct the count.
   */
  lemma KickLeaksIpCount(r: RoomState, q: JoinRequest, id: ConnId, now: int)
    requires Inv(r)
    requires JoinAsWritten(r, q, id, now).error.None? && |JoinAsWritten(r, q, id, now).kicked| > 0
    ensures var res := JoinAsWritten(r, q, id, now);
      var x := res.kicked[0].conn.ip;
      && CountIp(res.room.conns, x) < GetOr(res.room.ipCount, x, 0)
      && !IpExact(res.room.conns, res.room.ipCount)
  {
    var res := JoinAsWritten(r, q, id, now);
    var rs := Resolve(r.conns, Nickname(q), OrNull(q.deviceId), OrNull(q.sessionId));
    var e := Entry(id, NewConn(q, now));
    var x := res.kicked[0].conn.ip;
    CountIpAppend(rs.kept, [e], x);
    assert CountIp(rs.kicked, x) >= 1;
    assert CountIp([e], x) == if x == ClientIp(q) then 1 else 0;
    assert GetOr(r.ipCount, x, 0) == CountIp(r.conns, x);
  }


  /**
   A failed send during a broadcast as written removes the connection but
   not its address count.
   */
  lemma SendFailureLeaksIpCount()
    ensures var res := BroadcastAsWritten(BobAlone, None, {"c1"});
      && Inv(BobAlone)
      && res.room.conns == []
      && res.room.ipCount == map["1.2.3.4" := 1]
      && !IpExact(res.room.conns, res.room.ipCount)
  {
    BobAloneIsValid();
    var r := BobAlone;
    var res := BroadcastAsWritten(r, None, {"c1"});
    assert Filter(r.conns, (e: Entry) => !(Recipient(e, None) && e.id in {"c1"})) == [];
    assert GetOr(res.room.ipCount, "1.2.3.4", 0) != CountIp(res.room.conns, "1.2.3.4");
  }

  /**
   The error handler as written removes the connection but not its address
   count; the close event that follows finds no entry and cannot release it.
   */
  lemma ErrorLeaksIpCount()
    ensures var r' := OnErrorAsWritten(BobAlone, "c1");
      && Inv(BobAlone)
      && r'.conns == []
      && r'.ipCount == map["1.2.3.4" := 1]
      && OnClose(r', "c1").ipCount == map["1.2.3.4" := 1]
      && !IpExact(OnClose(r', "c1").conns, OnClose(r', "c1").ipCount)
  {
    BobAloneIsValid();
    var r' := OnErrorAsWritten(BobAlone, "c1");
    assert Filter(BobAlone.conns, (e: Entry) => e.id != "c1") == [];
    assert Filter(r'.conns, (e: Entry) => e.id != "c1") == [];
    assert GetOr(OnClose(r', "c1").ipCount, "1.2.3.4", 0) != CountIp(OnClose(r', "c1").conns, "1.2.3.4");
  }
}
