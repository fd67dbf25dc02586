/**
 Receiver-side file reassembly, `handleFileChunk` in public/chat.js: the
 per-file chunk buffer, duplicate detection, the received-chunk counter,
 out-of-order arrival before the metadata, gap detection when the counter
 reaches the announced total, and the final decrypt and integrity check;
 plus the events that abandon a pending file (stall timer, sender left,
 transfer cancelled, socket closed).

 The WebCrypto calls (`decrypt` of the metadata, `decryptFile`,
 `calculateFileHash`) are parameters. A JavaScript array written past its
 end grows with holes; holes and `null` entries both read as empty.
 */
module Reassembly {
  import opened Common
  import Chunking

  const StallTimeoutMs := 120000

  type Payload = seq<Byte>

  /** Encrypted metadata carried by a chunk (`metadata.iv` and `metadata.data` present). */
  datatype EncMeta = EncMeta(iv: seq<Byte>, data: seq<Byte>)

  /** Decrypted metadata; an empty `hash` is the falsy "no hash" case. */
  datatype FileMeta = FileMeta(name: string, iv: seq<Byte>, hash: string)

  /** A relayed `file_chunk` message. A missing or `null` payload is `None`. */
  datatype ChunkMsg = ChunkMsg(
    fileId: string,
    chunkIndex: nat,
    totalChunks: int,
    payload: Option<Payload>,
    metadata: Option<EncMeta>,
    from: string,
    connectionId: ConnId)

  /** One entry of `pendingFileChunks`. */
  datatype Pending = Pending(
    slots: seq<Option<Payload>>,
    metadata: Option<FileMeta>,
    from: string,
    connectionId: ConnId,
    received: nat,
    duplicates: nat)

  type Buffers = map<string, Pending>

  /** The foreign crypto calls, as total functions; `None` is a thrown error. */
  datatype Crypto = Crypto(
    decryptMeta: EncMeta -> Option<FileMeta>,
    decryptFile: (Payload, FileMeta) -> Option<Payload>,
    fileHash: Payload -> string)

  datatype Outcome =
    | OwnChunk
    | Thrown
    | Duplicate
    | Stored
    | Incomplete(missing: seq<nat>)
    | MissingMetadata
    | DecryptFailed
    | HashMismatch
    | Delivered(from: string, name: string, content: Payload)

  /**
   The buffers afterwards, what happened to the chunk, and whether this
   chunk armed the 120 s stall timer.
   */
  datatype ChunkResult = ChunkResult(pending: Buffers, outcome: Outcome, stallArmed: bool)

  // ---------------------------------------------------------------------------
  // The chunk buffer
  // ---------------------------------------------------------------------------

  /** `chunks[i]` is truthy. */
  predicate Filled(slots: seq<Option<Payload>>, i: nat) {
    i < |slots| && slots[i].Some?
  }

  /** `chunks[i] = p`, growing the array with holes when `i` is past its end. */
  function Write(slots: seq<Option<Payload>>, i: nat, p: Option<Payload>): (r: seq<Option<Payload>>)
    ensures |r| == if i < |slots| then |slots| else i + 1
    ensures r[i] == p
    ensures forall j :: 0 <= j < |r| && j != i ==> r[j] == if j < |slots| then slots[j] else None
  {
    if i < |slots| then slots[i := p] else slots + seq(i - |slots|, _ => None) + [p]
  }

  /** Number of truthy slots. */
  function CountFilled(slots: seq<Option<Payload>>): nat {
    if |slots| == 0 then 0 else (if slots[0].Some? then 1 else 0) + CountFilled(slots[1..])
  }

  /** Indices in `[0, total)` whose slot is empty, ascending: the gap scan at completion. */
  function Missing(slots: seq<Option<Payload>>, total: int): (r: seq<nat>)
    ensures forall j: nat :: j in r <==> j < total && !Filled(slots, j)
    ensures forall a, b :: 0 <= a < b < |r| ==> r[a] < r[b]
    decreases if total < 0 then 0 else total
  {
    if total <= 0 then []
    else
      var earlier := Missing(slots, total - 1);
      assert forall a :: 0 <= a < |earlier| ==> earlier[a] in earlier;
      earlier + (if Filled(slots, total - 1) then [] else [total - 1])
  }

  lemma NoGapNoMissing(slots: seq<Option<Payload>>, total: int)
    requires forall j: nat :: j < total ==> Filled(slots, j)
    ensures Missing(slots, total) == []
  {
  }

  /** `chunks.flat()`: the payloads in index order, empty slots skipped. */
  function Flat(slots: seq<Option<Payload>>): Payload {
    if |slots| == 0 then []
    else (match slots[0] case Some(p) => p case None => []) + Flat(slots[1..])
  }

  // ---------------------------------------------------------------------------
  // handleFileChunk
  // ---------------------------------------------------------------------------

  function NewEntry(m: ChunkMsg, meta: Option<FileMeta>): (p: Pending)
    requires m.totalChunks >= 0
    ensures |p.slots| == m.totalChunks && CountFilled(p.slots) == 0
    ensures p.received == 0 && p.duplicates == 0 && p.metadata == meta
  {
    var slots := seq(m.totalChunks, _ => None);
    NoneCountsZero(slots);
    Pending(slots, meta, m.from, m.connectionId, 0, 0)
  }

  lemma {:induction false} NoneCountsZero(slots: seq<Option<Payload>>)
    requires forall j :: 0 <= j < |slots| ==> slots[j].None?
    ensures CountFilled(slots) == 0
  {
    if |slots| > 0 {
      NoneCountsZero(slots[1..]);
    }
  }

  /**
   The entry the chunk will be written into, before the write: a new one
   for a file not seen yet (decrypting the metadata when the chunk carries
   it, and arming the stall timer only then), or the existing one with the
   metadata attached when it has none yet. `None` when the metadata
   decryption or `new Array(totalChunks)` throws; nothing is stored then.
   */
  function Admit(pending: Buffers, m: ChunkMsg, crypto: Crypto): (r: Option<(Pending, bool)>)
    ensures r.Some? && m.fileId in pending ==>
      && !r.value.1
      && r.value.0 == pending[m.fileId].(metadata := r.value.0.metadata)
      && (pending[m.fileId].metadata.Some? || m.metadata.None? ==> r.value.0 == pending[m.fileId])
    ensures r.Some? && m.fileId !in pending ==>
      && r.value.1 == m.metadata.Some?
      && r.value.0.received == 0 && CountFilled(r.value.0.slots) == 0 && |r.value.0.slots| == m.totalChunks
      && (m.metadata.None? ==> r.value.0.metadata.None?)
      && r.value.0.connectionId == m.connectionId && r.value.0.from == m.from
    ensures r.None? ==> m.metadata.Some? || m.fileId !in pending
    ensures m.fileId !in pending ==>
      (r.Some? <==> m.totalChunks >= 0 && (m.metadata.Some? ==> crypto.decryptMeta(m.metadata.value).Some?))
    ensures m.fileId in pending ==>
      (r.None? <==> m.metadata.Some? && pending[m.fileId].metadata.None? && crypto.decryptMeta(m.metadata.value).None?)
    ensures r.Some? && m.metadata.Some? && (m.fileId in pending ==> pending[m.fileId].metadata.None?) ==>
      r.value.0.metadata == crypto.decryptMeta(m.metadata.value)
    ensures r.Some? ==> r.value.0.slots == SlotsBefore(pending, m) && r.value.0.received == ReceivedBefore(pending, m)
  {
    if m.fileId !in pending then
      if m.metadata.Some? then
        match crypto.decryptMeta(m.metadata.value)
        case None => None
        case Some(meta) => if m.totalChunks < 0 then None else Some((NewEntry(m, Some(meta)), true))
      else if m.totalChunks < 0 then None
      else Some((NewEntry(m, None), false))
    else
      var p := pending[m.fileId];
      if m.metadata.Some? && p.metadata.None? then
        match crypto.decryptMeta(m.metadata.value)
        case None => None
        case Some(meta) => Some((p.(metadata := Some(meta)), false))
      else Some((p, false))
  }

  /**
   The completion attempt once the counter equals this chunk's `totalChunks`:
   a gap or missing metadata abandons the file; a failed decryption keeps the
   entry; a hash mismatch abandons it; otherwise the file is delivered and
   the entry removed.
   */
  function Complete(pending: Buffers, fileId: string, p: Pending, total: int, crypto: Crypto, stall: bool)
    : (r: ChunkResult)
    ensures r.outcome.Delivered? ==>
      && Missing(p.slots, total) == [] && p.metadata.Some?
      && crypto.decryptFile(Flat(p.slots), p.metadata.value) == Some(r.outcome.content)
      && (p.metadata.value.hash == "" || crypto.fileHash(r.outcome.content) == p.metadata.value.hash)
      && r.outcome.from == p.from
    ensures r.outcome.DecryptFailed? ==> r.pending == pending[fileId := p]
    ensures !r.outcome.DecryptFailed? ==> r.pending == pending - {fileId}
    ensures r.outcome.Incomplete? <==> Missing(p.slots, total) != []
    ensures r.outcome == MissingMetadata <==> Missing(p.slots, total) == [] && p.metadata.None?
    ensures r.outcome == DecryptFailed <==>
      Missing(p.slots, total) == [] && p.metadata.Some? && crypto.decryptFile(Flat(p.slots), p.metadata.value).None?
    ensures r.outcome == HashMismatch <==>
      && Missing(p.slots, total) == [] && p.metadata.Some?
      && crypto.decryptFile(Flat(p.slots), p.metadata.value).Some?
      && p.metadata.value.hash != ""
      && crypto.fileHash(crypto.decryptFile(Flat(p.slots), p.metadata.value).value) != p.metadata.value.hash
    ensures r.outcome.Delivered? <==>
      && Missing(p.slots, total) == [] && p.metadata.Some?
      && crypto.decryptFile(Flat(p.slots), p.metadata.value).Some?
      && (p.metadata.value.hash == ""
          || crypto.fileHash(crypto.decryptFile(Flat(p.slots), p.metadata.value).value) == p.metadata.value.hash)
    ensures r.outcome.Delivered? ==> r.outcome.name == p.metadata.value.name
    ensures r.stallArmed == stall
    ensures r.outcome in {Incomplete(Missing(p.slots, total)), MissingMetadata, DecryptFailed, HashMismatch}
      || r.outcome.Delivered?
  {
    var missing := Missing(p.slots, total);
    if |missing| > 0 then ChunkResult(pending - {fileId}, Incomplete(missing), stall)
    else if p.metadata.None? then ChunkResult(pending - {fileId}, MissingMetadata, stall)
    else
      var meta := p.metadata.value;
      match crypto.decryptFile(Flat(p.slots), meta)
      case None => ChunkResult(pending[fileId := p], DecryptFailed, stall)
      case Some(content) =>
        if meta.hash != "" && crypto.fileHash(content) != meta.hash then
          ChunkResult(pending - {fileId}, HashMismatch, stall)
        else
          ChunkResult(pending - {fileId}, Delivered(p.from, meta.name, content), stall)
  }

  /**
   One incoming `file_chunk`. Own chunks are ignored. A chunk for an already
   filled slot only bumps the duplicate count; otherwise the slot is written
   and the counter raised, and when the counter equals the chunk's
   `totalChunks` completion is attempted. Other files are never touched.
   */
  function HandleChunk(pending: Buffers, m: ChunkMsg, myId: ConnId, crypto: Crypto): (r: ChunkResult)
    ensures forall f :: f != m.fileId ==> (f in r.pending <==> f in pending) && (f in pending ==> r.pending[f] == pending[f])
    ensures m.connectionId == myId ==> r == ChunkResult(pending, OwnChunk, false)
    ensures r.outcome == Thrown ==> r.pending == pending
    ensures r.outcome == Duplicate ==>
      && m.fileId in r.pending && Filled(r.pending[m.fileId].slots, m.chunkIndex)
      && (m.fileId in pending ==>
            && r.pending[m.fileId].slots == pending[m.fileId].slots
            && r.pending[m.fileId].received == pending[m.fileId].received
            && r.pending[m.fileId].duplicates == pending[m.fileId].duplicates + 1)
    ensures r.outcome == Stored ==>
      && m.fileId in r.pending
      && r.pending[m.fileId].slots == Write(SlotsBefore(pending, m), m.chunkIndex, m.payload)
      && r.pending[m.fileId].received == ReceivedBefore(pending, m) + 1
      && r.pending[m.fileId].received != m.totalChunks
    ensures r.outcome.Delivered? ==> m.fileId !in r.pending
    ensures r.stallArmed ==> m.fileId !in pending && m.metadata.Some?
  {
    if m.connectionId == myId then ChunkResult(pending, OwnChunk, false)
    else
      match Admit(pending, m, crypto)
      case None => ChunkResult(pending, Thrown, false)
      case Some((p, stall)) => Place(pending, m, p, stall, crypto)
  }

  /**
   The write into the admitted entry `p`: a duplicate only bumps its count;
   otherwise the slot is written, the counter raised, and completion
   attempted when the counter reaches the chunk's `totalChunks`.
   */
  function Place(pending: Buffers, m: ChunkMsg, p: Pending, stall: bool, crypto: Crypto): (r: ChunkResult)
    ensures forall f :: f != m.fileId ==> (f in r.pending <==> f in pending) && (f in pending ==> r.pending[f] == pending[f])
    ensures r.outcome == Duplicate <==> Filled(p.slots, m.chunkIndex)
    ensures !Filled(p.slots, m.chunkIndex) ==> (r.outcome == Stored <==> p.received + 1 != m.totalChunks)
    ensures r.outcome == Duplicate ==> r.pending == pending[m.fileId := p.(duplicates := p.duplicates + 1)]
    ensures r.outcome == Stored ==>
      && r.pending == pending[m.fileId := p.(slots := Write(p.slots, m.chunkIndex, m.payload), received := p.received + 1)]
      && p.received + 1 != m.totalChunks
    ensures r.outcome.Delivered? ==> m.fileId !in r.pending
    ensures r.stallArmed == stall && r.outcome != Thrown && r.outcome != OwnChunk
  {
    if Filled(p.slots, m.chunkIndex) then
      ChunkResult(pending[m.fileId := p.(duplicates := p.duplicates + 1)], Duplicate, stall)
    else
      var p' := p.(slots := Write(p.slots, m.chunkIndex, m.payload), received := p.received + 1);
      if p'.received != m.totalChunks then ChunkResult(pending[m.fileId := p'], Stored, stall)
      else Complete(pending, m.fileId, p', m.totalChunks, crypto, stall)
  }

  /** The slots of the entry a chunk lands in, before it is written (empty for a new file). */
  function SlotsBefore(pending: Buffers, m: ChunkMsg): seq<Option<Payload>> {
    if m.fileId in pending then pending[m.fileId].slots
    else if m.totalChunks < 0 then [] else seq(m.totalChunks, _ => None)
  }

  function ReceivedBefore(pending: Buffers, m: ChunkMsg): nat {
    if m.fileId in pending then pending[m.fileId].received else 0
  }

  // ---------------------------------------------------------------------------
  // Abandoning pending files
  // ---------------------------------------------------------------------------

  /** The stall timer armed by a file's first chunk fires: the file goes if still short of `total`. */
  function StallTimerFires(pending: Buffers, fileId: string, total: int): (r: Buffers)
    ensures fileId in pending && pending[fileId].received < total ==> r == pending - {fileId}
    ensures !(fileId in pending && pending[fileId].received < total) ==> r == pending
  {
    if fileId in pending && pending[fileId].received < total then pending - {fileId} else pending
  }

  /** `user_left`: every file being received from the leaving connection is dropped. */
  function SenderLeft(pending: Buffers, connectionId: ConnId): (r: Buffers)
    ensures forall f :: f in r <==> f in pending && pending[f].connectionId != connectionId
    ensures forall f :: f in r ==> r[f] == pending[f]
  {
    map f | f in pending && pending[f].connectionId != connectionId :: pending[f]
  }

  /** `file_transfer_cancelled`. */
  function Cancelled(pending: Buffers, fileId: string): (r: Buffers)
    ensures fileId !in r
    ensures forall f :: f != fileId ==> (f in r <==> f in pending)
    ensures forall f :: f in r ==> r[f] == pending[f]
  {
    pending - {fileId}
  }

  /** The socket's `close` event clears every pending file. */
  function SocketClosed(pending: Buffers): (r: Buffers)
    ensures |r| == 0
  {
    map[]
  }

  // ---------------------------------------------------------------------------
  // The received counter
  // ---------------------------------------------------------------------------

  /** `receivedChunks` equals the number of filled slots. */
  predicate Counted(p: Pending) {
    p.received == CountFilled(p.slots)
  }

  lemma {:induction false} CountFilledAppend(a: seq<Option<Payload>>, b: seq<Option<Payload>>)
    ensures CountFilled(a + b) == CountFilled(a) + CountFilled(b)
  {
    if |a| > 0 {
      assert (a + b)[1..] == a[1..] + b;
      CountFilledAppend(a[1..], b);
    } else {
      assert a + b == b;
    }
  }

  lemma {:induction false} CountFilledUpdate(s: seq<Option<Payload>>, i: nat, x: Payload)
    requires i < |s| && s[i].None?
    ensures CountFilled(s[i := Some(x)]) == CountFilled(s) + 1
  {
    if i > 0 {
      assert s[i := Some(x)][1..] == s[1..][i - 1 := Some(x)];
      CountFilledUpdate(s[1..], i - 1, x);
    } else {
      assert s[i := Some(x)][1..] == s[1..];
    }
  }

  /** Writing a real payload into an empty slot raises the count of filled slots by one. */
  lemma WriteCountsOne(s: seq<Option<Payload>>, i: nat, x: Payload)
    requires !Filled(s, i)
    ensures CountFilled(Write(s, i, Some(x))) == CountFilled(s) + 1
  {
    if i < |s| {
      CountFilledUpdate(s, i, x);
    } else {
      var holes: seq<Option<Payload>> := seq(i - |s|, _ => None);
      NoneCountsZero(holes);
      CountFilledAppend(s, holes);
      CountFilledAppend(s + holes, [Some(x)]);
      assert CountFilled([Some(x)]) == 1 + CountFilled([]);
    }
  }

  /**
   With a real payload in every message, `receivedChunks` keeps counting the
   filled slots exactly, whatever order chunks, duplicates and metadata
   arrive in.
   */
  lemma ChunkKeepsCounted(pending: Buffers, m: ChunkMsg, myId: ConnId, crypto: Crypto)
    requires m.payload.Some?
    requires m.fileId in pending ==> Counted(pending[m.fileId])
    ensures var r := HandleChunk(pending, m, myId, crypto);
      m.fileId in r.pending ==> Counted(r.pending[m.fileId])
  {
    if m.connectionId != myId {
      match Admit(pending, m, crypto)
      case None =>
      case Some((p, stall)) =>
        if !Filled(p.slots, m.chunkIndex) {
          WriteCountsOne(p.slots, m.chunkIndex, m.payload.value);
        }
    }
  }

  /** A buffer with every slot counted as filled has no gap. */
  lemma {:induction false} FullCountMeansNoGap(s: seq<Option<Payload>>)
    requires CountFilled(s) == |s|
    ensures forall j :: 0 <= j < |s| ==> s[j].Some?
  {
    if |s| > 0 {
      assert CountFilled(s[1..]) <= |s[1..]| by {
        CountFilledBound(s[1..]);
      }
      FullCountMeansNoGap(s[1..]);
      forall j | 0 <= j < |s|
        ensures s[j].Some?
      {
        if j > 0 {
          assert s[j] == s[1..][j - 1];
        }
      }
    }
  }

  lemma {:induction false} AllFilledCount(s: seq<Option<Payload>>)
    requires forall j :: 0 <= j < |s| ==> s[j].Some?
    ensures CountFilled(s) == |s|
  {
    if |s| > 0 {
      AllFilledCount(s[1..]);
    }
  }

  lemma {:induction false} CountFilledBound(s: seq<Option<Payload>>)
    ensures CountFilled(s) <= |s|
  {
    if |s| > 0 {
      CountFilledBound(s[1..]);
    }
  }

  /**
   When every chunk carries a payload and the announced total matches the
   buffer, the gap scan at completion never fires: counting to the total
   means every slot is filled.
   */
  lemma CompletionFindsNoGap(p: Pending, total: int)
    requires Counted(p) && p.received == total && |p.slots| == total
    ensures Missing(p.slots, total) == []
  {
    FullCountMeansNoGap(p.slots);
    NoGapNoMissing(p.slots, total);
  }

  /**
   A `null` payload is counted but leaves its slot empty, so a second copy of
   the same chunk is counted again: two messages for slot 0 of a two-chunk
   file reach the total and the completion scan reports slot 1 missing.
   */
  lemma NullPayloadCountedTwice(crypto: Crypto)
    ensures var m0 := ChunkMsg("f", 0, 2, None, None, "bob", "c1");
      var m1 := ChunkMsg("f", 0, 2, Some([7]), None, "bob", "c1");
      var r0 := HandleChunk(map[], m0, "me", crypto);
      var r1 := HandleChunk(r0.pending, m1, "me", crypto);
      && r0.outcome == Stored
      && !Counted(r0.pending["f"])
      && r1.outcome == Incomplete([1])
  {
    var m0 := ChunkMsg("f", 0, 2, None, None, "bob", "c1");
    var p0 := Pending([None, None], None, "bob", "c1", 0, 0);
    assert seq(2, _ => None) == p0.slots;
    assert Admit(map[], m0, crypto) == Some((p0, false));
    var q0 := Pending([None, None], None, "bob", "c1", 1, 0);
    assert Write(p0.slots, 0, None) == [None, None];
    assert HandleChunk(map[], m0, "me", crypto) == ChunkResult(map["f" := q0], Stored, false);
    assert CountFilled([None, None]) == 0 by {
      NoneCountsZero([None, None]);
    }
    var m1 := ChunkMsg("f", 0, 2, Some([7]), None, "bob", "c1");
    assert Admit(map["f" := q0], m1, crypto) == Some((q0, false));
    var p1 := Pending([Some([7]), None], None, "bob", "c1", 2, 0);
    assert Write(q0.slots, 0, Some([7])) == p1.slots;
    assert Missing(p1.slots, 2) == Missing(p1.slots, 1) + [1];
    assert HandleChunk(map["f" := q0], m1, "me", crypto) == Complete(map["f" := q0], "f", p1, 2, crypto, false);
  }

  // ---------------------------------------------------------------------------
  // End to end: an in-order transfer delivers the sender's ciphertext
  // ---------------------------------------------------------------------------

  /** The `i`-th message of a transfer of `parts`; only the first carries metadata. */
  function TransferMsg(fileId: string, parts: seq<Payload>, i: nat, enc: EncMeta, from: string, cid: ConnId)
    : ChunkMsg
    requires i < |parts|
  {
    ChunkMsg(fileId, i, |parts|, Some(parts[i]), if i == 0 then Some(enc) else None, from, cid)
  }

  /** Messages `j..` of an in-order transfer fed one after another; the last outcome is reported. */
  function Feed(pending: Buffers, fileId: string, parts: seq<Payload>, j: nat, enc: EncMeta, from: string,
                cid: ConnId, myId: ConnId, crypto: Crypto): ChunkResult
    requires j < |parts|
    decreases |parts| - j
  {
    var r := HandleChunk(pending, TransferMsg(fileId, parts, j, enc, from, cid), myId, crypto);
    if j + 1 == |parts| then r else Feed(r.pending, fileId, parts, j + 1, enc, from, cid, myId, crypto)
  }

  /** The buffer after the first `j` chunks of an in-order transfer. */
  function Prefix(parts: seq<Payload>, j: nat): (s: seq<Option<Payload>>)
    ensures |s| == |parts|
  {
    seq(|parts|, i requires 0 <= i < |parts| => if i < j then Some(parts[i]) else None)
  }

  lemma {:induction false} FlatOfAll(parts: seq<Payload>)
    ensures Flat(Prefix(parts, |parts|)) == Chunking.Concat(parts)
  {
    if |parts| > 0 {
      FlatOfAll(parts[1..]);
      assert Prefix(parts, |parts|)[1..] == Prefix(parts[1..], |parts[1..]|);
    }
  }

  /** One in-order chunk after the first: written into the next slot, completing on the last. */
  lemma NextChunk(pending: Buffers, fileId: string, parts: seq<Payload>, j: nat, enc: EncMeta,
                  meta: FileMeta, from: string, cid: ConnId, myId: ConnId, crypto: Crypto)
    requires 0 < j < |parts| && cid != myId
    requires fileId in pending && pending[fileId] == Pending(Prefix(parts, j), Some(meta), from, cid, j, 0)
    ensures var p' := Pending(Prefix(parts, j + 1), Some(meta), from, cid, j + 1, 0);
      HandleChunk(pending, TransferMsg(fileId, parts, j, enc, from, cid), myId, crypto)
      == if j + 1 < |parts| then ChunkResult(pending[fileId := p'], Stored, false)
         else Complete(pending, fileId, p', |parts|, crypto, false)
  {
    var m := TransferMsg(fileId, parts, j, enc, from, cid);
    assert Admit(pending, m, crypto) == Some((pending[fileId], false));
    assert !Filled(Prefix(parts, j), j);
    assert Write(Prefix(parts, j), j, Some(parts[j])) == Prefix(parts, j + 1);
  }

  lemma {:induction false} FeedFrom(pending: Buffers, fileId: string, parts: seq<Payload>, j: nat, enc: EncMeta,
                                   meta: FileMeta, from: string, cid: ConnId, myId: ConnId, crypto: Crypto)
    requires 0 < j < |parts| && cid != myId
    requires fileId in pending && pending[fileId] == Pending(Prefix(parts, j), Some(meta), from, cid, j, 0)
    ensures Feed(pending, fileId, parts, j, enc, from, cid, myId, crypto)
      == Complete(pending, fileId, Pending(Prefix(parts, |parts|), Some(meta), from, cid, |parts|, 0),
                  |parts|, crypto, false)
    decreases |parts| - j
  {
    NextChunk(pending, fileId, parts, j, enc, meta, from, cid, myId, crypto);
    var p' := Pending(Prefix(parts, j + 1), Some(meta), from, cid, j + 1, 0);
    if j + 1 < |parts| {
      var next := pending[fileId := p'];
      FeedStep(pending, next, fileId, parts, j, enc, from, cid, myId, crypto);
      FeedFrom(next, fileId, parts, j + 1, enc, meta, from, cid, myId, crypto);
      var full := Pending(Prefix(parts, |parts|), Some(meta), from, cid, |parts|, 0);
      SameCompletion(pending, next, fileId, full, |parts|, crypto);
    }
  }

  lemma FeedStep(pending: Buffers, next: Buffers, fileId: string, parts: seq<Payload>, j: nat, enc: EncMeta,
                 from: string, cid: ConnId, myId: ConnId, crypto: Crypto)
    requires j + 1 < |parts|
    requires HandleChunk(pending, TransferMsg(fileId, parts, j, enc, from, cid), myId, crypto).pending == next
    ensures Feed(pending, fileId, parts, j, enc, from, cid, myId, crypto)
      == Feed(next, fileId, parts, j + 1, enc, from, cid, myId, crypto)
  {
  }

  /** Completion only reads the buffers outside the completed file. */
  lemma SameCompletion(a: Buffers, b: Buffers, fileId: string, p: Pending, total: int, crypto: Crypto)
    requires a - {fileId} == b - {fileId}
    ensures Complete(a, fileId, p, total, crypto, false) == Complete(b, fileId, p, total, crypto, false)
  {
    forall k | k != fileId
      ensures (k in a <==> k in b) && (k in a ==> a[k] == b[k])
    {
      assert k in a <==> k in a - {fileId};
      assert k in b <==> k in b - {fileId};
      if k in a {
        assert a[k] == (a - {fileId})[k];
        assert b[k] == (b - {fileId})[k];
      }
    }
    assert a[fileId := p] == b[fileId := p];
  }

  /** Completion over a fully received in-order buffer delivers the decryption of the flattened parts. */
  lemma CompleteDelivers(pending: Buffers, fileId: string, parts: seq<Payload>, meta: FileMeta, content: Payload,
                         from: string, cid: ConnId, crypto: Crypto, stall: bool)
    requires |parts| > 0
    requires crypto.decryptFile(Chunking.Concat(parts), meta) == Some(content)
    requires meta.hash == "" || crypto.fileHash(content) == meta.hash
    ensures Complete(pending, fileId, Pending(Prefix(parts, |parts|), Some(meta), from, cid, |parts|, 0),
                     |parts|, crypto, stall)
      == ChunkResult(pending - {fileId}, Delivered(from, meta.name, content), stall)
  {
    var full := Pending(Prefix(parts, |parts|), Some(meta), from, cid, |parts|, 0);
    FlatOfAll(parts);
    AllFilledCount(full.slots);
    CompletionFindsNoGap(full, |parts|);
  }

  /** The first message of an in-order transfer creates the entry with its metadata and slot 0 filled. */
  lemma FirstChunk(pending: Buffers, fileId: string, parts: seq<Payload>, enc: EncMeta, meta: FileMeta,
                   from: string, cid: ConnId, myId: ConnId, crypto: Crypto)
    requires |parts| > 0 && fileId !in pending && cid != myId
    requires crypto.decryptMeta(enc) == Some(meta)
    ensures var r := HandleChunk(pending, TransferMsg(fileId, parts, 0, enc, from, cid), myId, crypto);
      var p1 := Pending(Prefix(parts, 1), Some(meta), from, cid, 1, 0);
      if |parts| == 1 then r == Complete(pending, fileId, p1, 1, crypto, true)
      else r == ChunkResult(pending[fileId := p1], Stored, true)
  {
    assert seq(|parts|, _ => None)[0 := Some(parts[0])] == Prefix(parts, 1);
  }

  /** An in-order transfer of any non-empty list of parts delivers the decryption of their concatenation. */
  lemma InOrderPartsDeliver(pending: Buffers, fileId: string, parts: seq<Payload>, enc: EncMeta,
                            meta: FileMeta, content: Payload, from: string, cid: ConnId, myId: ConnId,
                            crypto: Crypto)
    requires |parts| > 0
    requires fileId !in pending && cid != myId
    requires crypto.decryptMeta(enc) == Some(meta)
    requires crypto.decryptFile(Chunking.Concat(parts), meta) == Some(content)
    requires meta.hash == "" || crypto.fileHash(content) == meta.hash
    ensures var r := Feed(pending, fileId, parts, 0, enc, from, cid, myId, crypto);
      r.outcome == Delivered(from, meta.name, content) && r.pending == pending
  {
    if |parts| > 1 {
      LaterChunksDeliver(pending, fileId, parts, enc, meta, content, from, cid, myId, crypto);
    } else {
      FirstChunk(pending, fileId, parts, enc, meta, from, cid, myId, crypto);
      var r0 := HandleChunk(pending, TransferMsg(fileId, parts, 0, enc, from, cid), myId, crypto);
      assert Feed(pending, fileId, parts, 0, enc, from, cid, myId, crypto) == r0;
      CompleteDelivers(pending, fileId, parts, meta, content, from, cid, crypto, true);
      assert pending - {fileId} == pending;
    }
  }

  lemma LaterChunksDeliver(pending: Buffers, fileId: string, parts: seq<Payload>, enc: EncMeta,
                           meta: FileMeta, content: Payload, from: string, cid: ConnId, myId: ConnId,
                           crypto: Crypto)
    requires |parts| > 1
    requires fileId !in pending && cid != myId
    requires crypto.decryptMeta(enc) == Some(meta)
    requires crypto.decryptFile(Chunking.Concat(parts), meta) == Some(content)
    requires meta.hash == "" || crypto.fileHash(content) == meta.hash
    ensures var r := Feed(pending, fileId, parts, 0, enc, from, cid, myId, crypto);
      r.outcome == Delivered(from, meta.name, content) && r.pending == pending
  {
    FirstChunk(pending, fileId, parts, enc, meta, from, cid, myId, crypto);
    var p1 := Pending(Prefix(parts, 1), Some(meta), from, cid, 1, 0);
    var next := pending[fileId := p1];
    assert Feed(pending, fileId, parts, 0, enc, from, cid, myId, crypto)
      == Feed(next, fileId, parts, 1, enc, from, cid, myId, crypto);
    FeedFrom(next, fileId, parts, 1, enc, meta, from, cid, myId, crypto);
    CompleteDelivers(next, fileId, parts, meta, content, from, cid, crypto, false);
    assert next - {fileId} == pending;
  }

  /**
   Sending the chunks of a ciphertext in order, metadata on the first,
   makes a receiver with no entry for the file decrypt exactly the
   original ciphertext split by `chunkArray`; the entry is gone afterwards.
   */
  lemma InOrderTransferDelivers(pending: Buffers, fileId: string, ciphertext: Payload, n: nat, enc: EncMeta,
                                meta: FileMeta, content: Payload, from: string, cid: ConnId, myId: ConnId,
                                crypto: Crypto)
    requires n > 0 && |ciphertext| > 0
    requires fileId !in pending && cid != myId
    requires crypto.decryptMeta(enc) == Some(meta)
    requires crypto.decryptFile(ciphertext, meta) == Some(content)
    requires meta.hash == "" || crypto.fileHash(content) == meta.hash
    ensures var r := Feed(pending, fileId, Chunking.Chunks(ciphertext, n), 0, enc, from, cid, myId, crypto);
      r.outcome == Delivered(from, meta.name, content) && r.pending == pending
  {
    Chunking.ConcatChunks(ciphertext, n);
    InOrderPartsDeliver(pending, fileId, Chunking.Chunks(ciphertext, n), enc, meta, content, from, cid, myId, crypto);
  }
}
