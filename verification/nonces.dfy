/**
 The two replay registries: the browser client's `CryptoHelper.verifyNonce`
 / `cleanupOldNonces` (public/chat.js), and `SecurityHelper.verifyNonce` /
 `cleanupOldNonces` of src/utils/security.js — a helper class that the
 relay (src/ChatRoom.js, src/index.js) never imports, so the relay itself
 keeps no registry. Both accept a nonce whose timestamp lies within 5 s of
 the clock and whose value is not registered; they differ in the purge age
 (5 s in the client, 10 s in the helper) and in which clock the client reads.

 A registry is a map from nonce value to the timestamp it was registered
 with. Clocks are explicit parameters.
 */
module Nonces {
  import opened Common

  const Window := 5000
  const ClientPurgeAge := 5000
  const HelperPurgeAge := 10000

  datatype Nonce = Nonce(timestamp: int, value: string)

  type Registry = map<string, int>

  /**
   The shared acceptance rule, read at clock `now`. It only inspects the
   registry; nothing is recorded.
   */
  function Fresh(now: int, n: Nonce, used: Registry): (ok: bool)
    ensures ok ==> -Window <= now - n.timestamp <= Window
    ensures ok <==> Abs(now - n.timestamp) <= Window && n.value !in used
  {
    if Abs(now - n.timestamp) > Window then false
    else if n.value in used then false
    else true
  }

  /** Removal of every entry older than `maxAge` at clock `now`. */
  function Purge(used: Registry, now: int, maxAge: int): (r: Registry)
    ensures forall v :: v in r <==> v in used && now - used[v] <= maxAge
    ensures forall v :: v in r ==> r[v] == used[v]
  {
    map v | v in used && now - used[v] <= maxAge :: used[v]
  }

  /** `usedNonces.set(nonce.value, nonce.timestamp)`. */
  function Register(used: Registry, n: Nonce): (r: Registry)
    ensures n.value in r && r[n.value] == n.timestamp
    ensures forall v :: v != n.value ==> (v in r <==> v in used) && (v in used ==> r[v] == used[v])
  {
    used[n.value := n.timestamp]
  }

  /** A registered value is rejected on every later delivery until it is purged. */
  lemma ReplayRejectedWhileRegistered(used: Registry, n: Nonce, now: int, later: int)
    requires Fresh(now, n, used)
    ensures !Fresh(later, n, Register(used, n))
  {
  }

  /** Purging twice at the same clock is purging once. */
  lemma PurgeIdempotent(used: Registry, now: int, maxAge: int)
    ensures Purge(Purge(used, now, maxAge), now, maxAge) == Purge(used, now, maxAge)
  {
  }

  // ---------------------------------------------------------------------------
  // The two instances
  // ---------------------------------------------------------------------------

  /** Client check: the clock is the local clock corrected by the server offset. */
  function ClientVerify(n: Nonce, used: Registry, localNow: int, offset: int): (ok: bool)
    ensures ok <==> Abs(localNow + offset - n.timestamp) <= Window && n.value !in used
  {
    Fresh(localNow + offset, n, used)
  }

  /** Client purge as written: 5 s age, read on the uncorrected local clock. */
  function ClientCleanupAsWritten(used: Registry, localNow: int): (r: Registry)
    ensures forall v :: v in r <==> v in used && localNow - used[v] <= ClientPurgeAge
    ensures forall v :: v in r ==> r[v] == used[v]
  {
    Purge(used, localNow, ClientPurgeAge)
  }

  /** Client purge on the same corrected clock as `ClientVerify`. */
  function ClientCleanup(used: Registry, localNow: int, offset: int): (r: Registry)
    ensures forall v :: v in r <==> v in used && localNow + offset - used[v] <= ClientPurgeAge
    ensures forall v :: v in r ==> r[v] == used[v]
  {
    Purge(used, localNow + offset, ClientPurgeAge)
  }

  /** `SecurityHelper.verifyNonce`, on the helper's own clock. */
  function HelperVerify(n: Nonce, used: Registry, now: int): (ok: bool)
    ensures ok <==> Abs(now - n.timestamp) <= Window && n.value !in used
  {
    Fresh(now, n, used)
  }

  /** `SecurityHelper.cleanupOldNonces`: 10 s age. */
  function HelperCleanup(used: Registry, now: int): (r: Registry)
    ensures forall v :: v in r <==> v in used && now - used[v] <= HelperPurgeAge
    ensures forall v :: v in r ==> r[v] == used[v]
  {
    Purge(used, now, HelperPurgeAge)
  }

  // ---------------------------------------------------------------------------
  // Runs: deliveries and purges interleaved on one local clock
  // ---------------------------------------------------------------------------

  /**
   Which clock each operation reads: the verifier reads `local + verifyOffset`,
   the purger `local + purgeOffset`, and entries older than `purgeAge` go.
   */
  datatype Clocks = Clocks(verifyOffset: int, purgeOffset: int, purgeAge: int)

  const HelperClocks := Clocks(0, 0, HelperPurgeAge)

  function ClientClocksAsWritten(offset: int): Clocks {
    Clocks(offset, 0, ClientPurgeAge)
  }

  function ClientClocks(offset: int): Clocks {
    Clocks(offset, offset, ClientPurgeAge)
  }

  datatype Event = Deliver(n: Nonce, at: int) | Sweep(at: int)

  datatype RunState = RunState(used: Registry, accepted: seq<Nonce>)

  /** One event: a delivery is checked and, when accepted, registered and recorded. */
  function Step(s: RunState, e: Event, c: Clocks): (s': RunState)
    ensures e.Deliver? && Fresh(e.at + c.verifyOffset, e.n, s.used) ==>
      s' == RunState(Register(s.used, e.n), s.accepted + [e.n])
    ensures e.Deliver? && !Fresh(e.at + c.verifyOffset, e.n, s.used) ==> s' == s
    ensures e.Sweep? ==> s'.accepted == s.accepted
  {
    match e
    case Deliver(n, at) =>
      if Fresh(at + c.verifyOffset, n, s.used) then RunState(Register(s.used, n), s.accepted + [n]) else s
    case Sweep(at) => RunState(Purge(s.used, at + c.purgeOffset, c.purgeAge), s.accepted)
  }

  function Run(s: RunState, events: seq<Event>, c: Clocks): RunState
    decreases |events|
  {
    if |events| == 0 then s else Run(Step(s, events[0], c), events[1..], c)
  }

  /** Local clock readings never go backwards, starting from `since`. */
  predicate Monotone(events: seq<Event>, since: int) {
    forall i :: 0 <= i < |events| ==> since <= events[i].at && (i > 0 ==> events[i - 1].at <= events[i].at)
  }

  predicate NoDuplicates(ns: seq<Nonce>) {
    forall i, j :: 0 <= i < j < |ns| ==> ns[i] != ns[j]
  }

  /**
   Every accepted nonce is either still registered under its own timestamp
   or already outside the acceptance window at verifier clock `clock`.
   */
  ghost predicate Guarded(s: RunState, clock: int) {
    forall k :: 0 <= k < |s.accepted| ==>
      (s.accepted[k].value in s.used && s.used[s.accepted[k].value] == s.accepted[k].timestamp)
      || clock - s.accepted[k].timestamp > Window
  }

  lemma {:induction false} StepKeepsGuard(s: RunState, e: Event, c: Clocks, clock: int)
    requires c.verifyOffset == c.purgeOffset && c.purgeAge >= Window
    requires Guarded(s, clock) && NoDuplicates(s.accepted)
    requires clock <= e.at + c.verifyOffset
    ensures Guarded(Step(s, e, c), e.at + c.verifyOffset)
    ensures NoDuplicates(Step(s, e, c).accepted)
  {
    var now := e.at + c.verifyOffset;
    var s' := Step(s, e, c);
    match e
    case Deliver(n, at) =>
      if Fresh(now, n, s.used) {
        forall k | 0 <= k < |s.accepted|
          ensures s.accepted[k] != n
        {
        }
        forall k | 0 <= k < |s'.accepted|
          ensures (s'.accepted[k].value in s'.used && s'.used[s'.accepted[k].value] == s'.accepted[k].timestamp)
            || now - s'.accepted[k].timestamp > Window
        {
          if k < |s.accepted| {
            assert s'.accepted[k] == s.accepted[k];
          }
        }
      }
    case Sweep(at) =>
  }

  /**
   At-most-once delivery: when the purger reads the same clock as the
   verifier and purges no earlier than the window closes, no nonce is
   accepted twice in any run, whatever the interleaving of deliveries and
   purges. Both `SecurityHelper` (10 s) and the corrected client (5 s) qualify.
   */
  lemma {:induction false} AtMostOnce(s: RunState, events: seq<Event>, c: Clocks, clock: int)
    requires c.verifyOffset == c.purgeOffset && c.purgeAge >= Window
    requires Guarded(s, clock) && NoDuplicates(s.accepted)
    requires Monotone(events, clock - c.verifyOffset)
    ensures NoDuplicates(Run(s, events, c).accepted)
    decreases |events|
  {
    if |events| > 0 {
      StepKeepsGuard(s, events[0], c, clock);
      var next := events[0].at + c.verifyOffset;
      assert Monotone(events[1..], next - c.verifyOffset) by {
        forall i | 0 <= i < |events[1..]|
          ensures next - c.verifyOffset <= events[1..][i].at
        {
          var j := i + 1;
          var k := 0;
          while k < j
            invariant 0 <= k <= j
            invariant events[0].at <= events[k].at
          {
            k := k + 1;
          }
        }
      }
      AtMostOnce(Step(s, events[0], c), events[1..], c, next);
    }
  }

  /** A `SecurityHelper` registry never accepts the same nonce twice. */
  lemma HelperAtMostOnce(events: seq<Event>, start: int)
    requires Monotone(events, start)
    ensures NoDuplicates(Run(RunState(map[], []), events, HelperClocks).accepted)
  {
    AtMostOnce(RunState(map[], []), events, HelperClocks, start);
  }

  /** The corrected client registry never accepts the same nonce twice, for any offset. */
  lemma ClientAtMostOnce(events: seq<Event>, start: int, offset: int)
    requires Monotone(events, start)
    ensures NoDuplicates(Run(RunState(map[], []), events, ClientClocks(offset)).accepted)
  {
    AtMostOnce(RunState(map[], []), events, ClientClocks(offset), start + offset);
  }

  /**
   The client as written, with the local clock 3 s ahead of the server
   (offset -3000): a nonce stamped 0 is accepted at local 3000, purged at
   local 6001 because the purge ignores the offset, and accepted again at
   local 6001, where the corrected clock still reads 3001.
   */
  lemma ClientReplayAsWritten()
    ensures var n := Nonce(0, "0-00");
      var events := [Deliver(n, 3000), Sweep(6001), Deliver(n, 6001)];
      && Monotone(events, 0)
      && Run(RunState(map[], []), events, ClientClocksAsWritten(-3000)).accepted == [n, n]
  {
    var n := Nonce(0, "0-00");
    var c := ClientClocksAsWritten(-3000);
    var s1 := Step(RunState(map[], []), Deliver(n, 3000), c);
    assert s1 == RunState(map[n.value := 0], [n]);
    var s2 := Step(s1, Sweep(6001), c);
    assert s2.used == map[];
    var s3 := Step(s2, Deliver(n, 6001), c);
    assert s3.accepted == [n, n];
    var events := [Deliver(n, 3000), Sweep(6001), Deliver(n, 6001)];
    var e1 := events[1..];
    var e2 := e1[1..];
    assert e1 == [Sweep(6001), Deliver(n, 6001)];
    assert e2 == [Deliver(n, 6001)];
    assert Run(s3, e2[1..], c) == s3;
    assert Run(s2, e2, c) == s3;
    assert Run(s1, e1, c) == s3;
    assert Run(RunState(map[], []), events, c) == s3;
  }
}
