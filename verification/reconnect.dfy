/**
 The client's connection lifecycle as far as automatic reconnection goes
 (public/chat.js): `connect`, `disconnect`, the socket's `open` and `close`
 events, `attemptReconnect` with its exponential backoff, and the server
 events that switch reconnection off (NICKNAME_IN_USE, `kicked`).

 Timers are modelled by returning the delay that would be scheduled; the
 timer firing is a separate transition.
 */
module Reconnect {
  import opened Common

  const MaxAttempts := 15
  const BaseDelayMs := 1000
  const MaxDelayMs := 30000
  const PolicyViolation := 1008

  /**
   `ws` non-null, `shouldReconnect`, and `reconnectAttempts`. The close event
   does not clear `ws`; only `disconnect` does.
   */
  datatype Client = Client(hasSocket: bool, shouldReconnect: bool, attempts: nat)

  /**
   `attemptReconnect`: nothing is scheduled once 15 attempts were made;
   otherwise the delay doubles from 1 s and is capped at 30 s.
   */
  function Backoff(attempts: nat): (d: Option<nat>)
    ensures d.None? <==> attempts >= MaxAttempts
    ensures d.Some? ==> BaseDelayMs <= d.value <= MaxDelayMs
    ensures d.Some? && attempts >= 5 ==> d.value == MaxDelayMs
    ensures d.Some? && attempts < 5 ==> d.value == BaseDelayMs * Pow2(attempts)
  {
    if attempts >= MaxAttempts then None
    else
      PowGrows(attempts);
      Some(Min(BaseDelayMs * Pow2(attempts), MaxDelayMs))
  }

  lemma {:induction false} PowGrows(k: nat)
    ensures Pow2(k) >= 1
    ensures k >= 5 ==> Pow2(k) >= 32
    ensures k < 5 ==> Pow2(k) <= 16
  {
    if k > 0 {
      PowGrows(k - 1);
    }
  }

  /** The schedule: 1, 2, 4, 8 and 16 seconds, then 30 seconds up to the fifteenth attempt. */
  lemma BackoffSchedule()
    ensures Backoff(0) == Some(1000) && Backoff(1) == Some(2000) && Backoff(2) == Some(4000)
    ensures Backoff(3) == Some(8000) && Backoff(4) == Some(16000)
    ensures forall a: nat :: 5 <= a < 15 ==> Backoff(a) == Some(30000)
    ensures forall a: nat :: a >= 15 ==> Backoff(a) == None
  {
    assert Pow2(4) == 16 by {
      assert Pow2(2) == 4;
    }
  }

  /** `disconnect`: reconnection off, the counter reset, the socket closed and dropped. */
  function Disconnect(c: Client): (c': Client)
    ensures !c'.hasSocket && !c'.shouldReconnect && c'.attempts == 0
  {
    Client(false, false, 0)
  }

  /** `connect` as written: a still-referenced socket is dropped through `disconnect` first. */
  function ConnectAsWritten(c: Client): (c': Client)
    ensures c'.hasSocket && c'.shouldReconnect
    ensures c'.attempts == if c.hasSocket then 0 else c.attempts
  {
    var c1 := if c.hasSocket then Disconnect(c) else c;
    c1.(hasSocket := true, shouldReconnect := true)
  }

  /** `connect` closing a stale socket without resetting the attempt counter. */
  function Connect(c: Client): (c': Client)
    ensures c'.hasSocket && c'.shouldReconnect && c'.attempts == c.attempts
  {
    c.(hasSocket := true, shouldReconnect := true)
  }

  /** The socket opened, or the server's `connected` arrived: the counter is reset. */
  function Opened(c: Client): (c': Client)
    ensures c'.attempts == 0 && c'.hasSocket == c.hasSocket && c'.shouldReconnect == c.shouldReconnect
  {
    c.(attempts := 0)
  }

  /** NICKNAME_IN_USE from the server switches reconnection off. */
  function NicknameInUse(c: Client): (c': Client)
    ensures !c'.shouldReconnect && c'.attempts == c.attempts
  {
    c.(shouldReconnect := false)
  }

  /** `kicked`: reconnection off, then `disconnect`. */
  function Kicked(c: Client): (c': Client)
    ensures !c'.shouldReconnect && !c'.hasSocket
  {
    Disconnect(c.(shouldReconnect := false))
  }

  datatype CloseResult = CloseResult(roomRemoved: bool, scheduled: Option<nat>)

  /**
   The socket's `close` event: code 1008 removes the room and never
   reconnects; otherwise a reconnect is attempted only while reconnection
   is on. The client state itself is not changed.
   */
  function Closed(c: Client, code: int): (r: CloseResult)
    ensures r.roomRemoved <==> code == PolicyViolation
    ensures r.scheduled.Some? <==> code != PolicyViolation && c.shouldReconnect && c.attempts < MaxAttempts
    ensures r.scheduled.Some? ==> r.scheduled == Backoff(c.attempts)
  {
    if code == PolicyViolation then CloseResult(true, None)
    else if c.shouldReconnect then CloseResult(false, Backoff(c.attempts))
    else CloseResult(false, None)
  }

  /** The reconnect timer fires, as written: count the attempt, then `connect`. */
  function FireAsWritten(c: Client): (c': Client)
    ensures c.hasSocket ==> c'.attempts == 0
  {
    ConnectAsWritten(c.(attempts := c.attempts + 1))
  }

  /** The reconnect timer fires with the counter kept across `connect`. */
  function Fire(c: Client): (c': Client)
    ensures c'.attempts == c.attempts + 1 && c'.hasSocket && c'.shouldReconnect
  {
    Connect(c.(attempts := c.attempts + 1))
  }

  /**
   Delays scheduled over up to `k` reconnect attempts that each fail before
   the socket opens (closed with an abnormal code), as written.
   */
  function RetryDelaysAsWritten(c: Client, k: nat): seq<nat>
    decreases k
  {
    if k == 0 then []
    else
      match Closed(c, 1006).scheduled
      case None => []
      case Some(d) => [d] + RetryDelaysAsWritten(FireAsWritten(c), k - 1)
  }

  /** The same with the corrected timer transition. */
  function RetryDelays(c: Client, k: nat): seq<nat>
    decreases k
  {
    if k == 0 then []
    else
      match Closed(c, 1006).scheduled
      case None => []
      case Some(d) => [d] + RetryDelays(Fire(c), k - 1)
  }

  /**
   As written, the stale socket makes every `connect` reset the counter, so
   a failing server is retried every second forever: the backoff never
   grows and the 15-attempt limit is never reached.
   */
  lemma {:induction false} RetriesNeverBackOffAsWritten(k: nat)
    ensures RetryDelaysAsWritten(Client(true, true, 0), k) == seq(k, _ => 1000)
  {
    if k > 0 {
      RetriesNeverBackOffAsWritten(k - 1);
      assert FireAsWritten(Client(true, true, 0)) == Client(true, true, 0);
    }
  }

  /**
   With the counter kept, consecutive failures are retried after the
   delays `Backoff(a)`, `Backoff(a + 1)`, … and retrying stops after the
   fifteenth attempt.
   */
  lemma {:induction false} RetriesFollowBackoff(c: Client, k: nat)
    requires c.shouldReconnect && c.attempts <= MaxAttempts
    ensures |RetryDelays(c, k)| == Min(k, MaxAttempts - c.attempts)
    ensures forall i :: 0 <= i < |RetryDelays(c, k)| ==> Some(RetryDelays(c, k)[i]) == Backoff(c.attempts + i)
  {
    RetryCount(c, k);
    forall i | 0 <= i < |RetryDelays(c, k)|
      ensures Some(RetryDelays(c, k)[i]) == Backoff(c.attempts + i)
    {
      RetryDelay(c, k, i);
    }
  }

  lemma {:induction false} RetryCount(c: Client, k: nat)
    requires c.shouldReconnect && c.attempts <= MaxAttempts
    ensures |RetryDelays(c, k)| == Min(k, MaxAttempts - c.attempts)
    decreases k
  {
    if k > 0 && c.attempts < MaxAttempts {
      RetryCount(Fire(c), k - 1);
    }
  }

  lemma {:induction false} RetryDelay(c: Client, k: nat, i: nat)
    requires c.shouldReconnect && i < |RetryDelays(c, k)|
    ensures Some(RetryDelays(c, k)[i]) == Backoff(c.attempts + i)
    decreases i
  {
    var rest := RetryDelays(Fire(c), k - 1);
    assert RetryDelays(c, k) == [Backoff(c.attempts).value] + rest;
    if i > 0 {
      RetryDelay(Fire(c), k - 1, i - 1);
    }
  }

  /**
   From a fresh start the corrected client retries after 1, 2, 4, 8 and
   16 seconds and then ten times after 30 seconds, and then gives up.
   */
  lemma FullSchedule()
    ensures var r := RetryDelays(Client(true, true, 0), 20);
      && |r| == MaxAttempts
      && r[..5] == [1000, 2000, 4000, 8000, 16000]
      && forall i :: 5 <= i < |r| ==> r[i] == MaxDelayMs
  {
    var r := RetryDelays(Client(true, true, 0), 20);
    RetriesFollowBackoff(Client(true, true, 0), 20);
    BackoffSchedule();
    assert Some(r[0]) == Backoff(0) && Some(r[1]) == Backoff(1) && Some(r[2]) == Backoff(2);
    assert Some(r[3]) == Backoff(3) && Some(r[4]) == Backoff(4);
    forall i | 5 <= i < |r|
      ensures r[i] == MaxDelayMs
    {
      assert Some(r[i]) == Backoff(i);
    }
  }

  /** After a kick or a nickname conflict no close event schedules a reconnect. */
  lemma NoReconnectAfterRefusal(c: Client, code: int)
    ensures Closed(Kicked(c), code).scheduled.None?
    ensures Closed(NicknameInUse(c), code).scheduled.None?
  {
  }
}
