/**
 The relay's single file-sender slot (src/ChatRoom.js,
 `requestFileTransferSlot` / `releaseFileTransferSlot`): a set of
 connections currently sending, capped at one, with no queue.
 */
module FileSlot {
  import opened Common

  const MaxConcurrentFileTransfers := 1

  /** Reply to a slot request; a rejection reports the current holder count and the cap. */
  datatype SlotReply = Granted | Refused(activeCount: nat, maxConcurrent: nat)

  datatype SlotResult = SlotResult(reply: SlotReply, active: set<ConnId>)

  /**
   A holder asking again is granted with nothing changed; otherwise the
   requester is added if a slot is free; a refusal changes nothing and
   reports how many hold a slot.
   */
  function Request(active: set<ConnId>, id: ConnId): (r: SlotResult)
    ensures |active| <= MaxConcurrentFileTransfers ==> |r.active| <= MaxConcurrentFileTransfers
    ensures r.reply == Granted <==> id in r.active
    ensures id in active ==> r.reply == Granted && r.active == active
    ensures r.reply.Refused? ==>
      r.active == active && r.reply.activeCount == |active| >= MaxConcurrentFileTransfers
      && r.reply.maxConcurrent == MaxConcurrentFileTransfers
    ensures r.reply == Granted ==> r.active - {id} == active - {id}
  {
    if id in active then SlotResult(Granted, active)
    else if |active| < MaxConcurrentFileTransfers then SlotResult(Granted, active + {id})
    else SlotResult(Refused(|active|, MaxConcurrentFileTransfers), active)
  }

  /** Release removes only the given connection, and is a no-op for a non-holder. */
  function Release(active: set<ConnId>, id: ConnId): (r: set<ConnId>)
    ensures id !in r
    ensures forall k :: k != id ==> (k in r <==> k in active)
    ensures id !in active ==> r == active
  {
    if id in active then active - {id} else active
  }

  /** With the cap of one, at most one connection ever holds the slot. */
  lemma SingleSender(active: set<ConnId>, a: ConnId, b: ConnId)
    requires |active| <= MaxConcurrentFileTransfers
    requires a in active && b in active
    ensures a == b
  {
    if a != b {
      assert {a, b} <= active;
      assert |{a, b}| == 2;
      SubsetCard({a, b}, active);
    }
  }

  lemma SubsetCard<T>(small: set<T>, big: set<T>)
    requires small <= big
    ensures |small| <= |big|
  {
    assert big == small + (big - small);
  }
}
