/**
 The relay's sliding-window rate limiters (src/ChatRoom.js): one list of
 accepted timestamps per connection, trimmed lazily to the last second on
 each check and garbage-collected by a periodic cleanup. General messages are
 limited to 15 per second and file chunks to 20 per second.
 */
module RateLimit {
  import opened Common

  const WindowMs := 1000
  const MessageLimit := 15
  const ChunkLimit := 20

  /** Per-connection lists of accepted timestamps (`connectionId -> timestamps[]`). */
  type Store = map<ConnId, seq<int>>

  /** `now - t < 1000`: the timestamp still counts against the window at `now`. */
  predicate InWindow(now: int, t: int) {
    now - t < WindowMs
  }

  /** `timestamps.filter(t => now - t < 1000)`, order preserved. */
  function Recent(ts: seq<int>, now: int): (r: seq<int>)
    ensures |r| <= |ts|
    ensures forall t :: t in r <==> t in ts && InWindow(now, t)
  {
    if |ts| == 0 then []
    else
      assert ts == [ts[0]] + ts[1..];
      (if InWindow(now, ts[0]) then [ts[0]] else []) + Recent(ts[1..], now)
  }

  lemma {:induction false} RecentAppend(a: seq<int>, b: seq<int>, now: int)
    ensures Recent(a + b, now) == Recent(a, now) + Recent(b, now)
  {
    if |a| > 0 {
      assert (a + b)[1..] == a[1..] + b;
      RecentAppend(a[1..], b, now);
    } else {
      assert a + b == b;
    }
  }

  /** Trimming at an earlier instant never hides anything a later trim would keep. */
  lemma {:induction false} RecentTwice(ts: seq<int>, earlier: int, now: int)
    requires earlier <= now
    ensures Recent(Recent(ts, earlier), now) == Recent(ts, now)
  {
    if |ts| > 0 {
      RecentTwice(ts[1..], earlier, now);
      var head := if InWindow(earlier, ts[0]) then [ts[0]] else [];
      RecentAppend(head, Recent(ts[1..], earlier), now);
    }
  }

  /** Outcome of one limiter check: the verdict and the updated store. */
  datatype Verdict = Verdict(allowed: bool, store: Store)

  /**
   `checkMessageRateLimit` / `checkFileChunkRateLimit` with the limit as a
   parameter: an accept stores the trimmed list plus `now`, a reject stores
   nothing; no other connection's list changes.
   */
  function Check(limit: nat, store: Store, id: ConnId, now: int): (v: Verdict)
    ensures v.allowed <==> |Recent(GetOr(store, id, []), now)| < limit
    ensures !v.allowed ==> v.store == store
    ensures v.allowed ==> id in v.store && now in v.store[id] && |Recent(v.store[id], now)| <= limit
    ensures forall k :: k != id ==> (k in v.store <==> k in store)
    ensures forall k :: k != id && k in store ==> v.store[k] == store[k]
  {
    var recent := Recent(GetOr(store, id, []), now);
    if |recent| >= limit then Verdict(false, store)
    else
      RecentAppend(recent, [now], now);
      RecentTwice(GetOr(store, id, []), now, now);
      Verdict(true, store[id := recent + [now]])
  }

  function CheckMessage(store: Store, id: ConnId, now: int): Verdict {
    Check(MessageLimit, store, id, now)
  }

  function CheckChunk(store: Store, id: ConnId, now: int): Verdict {
    Check(ChunkLimit, store, id, now)
  }

  /**
   The stored (lazily trimmed) list agrees with the complete history of
   accepted timestamps on every window evaluated at or after `since`.
   */
  ghost predicate Faithful(history: seq<int>, stored: seq<int>, since: int) {
    forall now :: now >= since ==> multiset(Recent(history, now)) == multiset(Recent(stored, now))
  }

  lemma EmptyIsFaithful(since: int)
    ensures Faithful([], [], since)
  {
  }

  /**
   The limiter decides by the whole history: a check at `now` (checks come
   with non-decreasing clocks) accepts iff fewer than `limit` previously
   accepted timestamps lie in the second before `now`, and the store stays
   faithful to the history extended by the accepted timestamp.
   */
  lemma {:induction false} CheckMatchesHistory(limit: nat, store: Store, id: ConnId, now: int,
                                              history: seq<int>, since: int)
    requires since <= now
    requires Faithful(history, GetOr(store, id, []), since)
    ensures Check(limit, store, id, now).allowed <==> |Recent(history, now)| < limit
    ensures var v := Check(limit, store, id, now);
      Faithful(if v.allowed then history + [now] else history, GetOr(v.store, id, []), now)
  {
    var stored := GetOr(store, id, []);
    var v := Check(limit, store, id, now);
    assert multiset(Recent(history, now)) == multiset(Recent(stored, now));
    assert |multiset(Recent(history, now))| == |Recent(history, now)|;
    assert |multiset(Recent(stored, now))| == |Recent(stored, now)|;
    if v.allowed {
      var kept := Recent(stored, now) + [now];
      assert GetOr(v.store, id, []) == kept;
      forall later | later >= now
        ensures multiset(Recent(history + [now], later)) == multiset(Recent(kept, later))
      {
        RecentAppend(history, [now], later);
        RecentAppend(Recent(stored, now), [now], later);
        RecentTwice(stored, now, later);
        assert multiset(Recent(history, later)) == multiset(Recent(stored, later));
      }
    }
  }

  /**
   At every acceptance, the accepted timestamps in the trailing second,
   this one included, number at most `limit`.
   */
  lemma AcceptedWindowBounded(limit: nat, store: Store, id: ConnId, now: int,
                              history: seq<int>, since: int)
    requires since <= now
    requires Faithful(history, GetOr(store, id, []), since)
    requires Check(limit, store, id, now).allowed
    ensures |Recent(history + [now], now)| <= limit
  {
    CheckMatchesHistory(limit, store, id, now, history, since);
    RecentAppend(history, [now], now);
  }

  /**
   `cleanupRateLimitData` for one map: keep only the last second of each
   list, and drop connections whose list became empty.
   */
  function Cleanup(store: Store, now: int): (r: Store)
    ensures forall k :: k in r <==> k in store && |Recent(store[k], now)| > 0
    ensures forall k :: k in r ==> r[k] == Recent(store[k], now)
  {
    map k | k in store && |Recent(store[k], now)| > 0 :: Recent(store[k], now)
  }

  /** Garbage collection is invisible to every later check. */
  lemma CleanupKeepsFaithful(store: Store, id: ConnId, now: int, history: seq<int>, since: int)
    requires since <= now
    requires Faithful(history, GetOr(store, id, []), since)
    ensures Faithful(history, GetOr(Cleanup(store, now), id, []), now)
  {
    var stored := GetOr(store, id, []);
    forall later | later >= now
      ensures multiset(Recent(history, later)) == multiset(Recent(GetOr(Cleanup(store, now), id, []), later))
    {
      RecentTwice(stored, now, later);
      assert multiset(Recent(history, later)) == multiset(Recent(stored, later));
    }
  }
}
