/**
 `CryptoHelper.chunkArray` (public/chat.js) and its inverse, the one-level
 `chunks.flat()` the receiver uses to rebuild the encrypted file. The same
 splitting also underlies the four-character grouping of key fingerprints
 (`hex.match(/.{1,4}/g)`), so it is stated once here, generically.
 */
module Chunking {

  /** One-level flattening, `parts.flat()`. */
  function Concat<T>(parts: seq<seq<T>>): seq<T> {
    if |parts| == 0 then [] else parts[0] + Concat(parts[1..])
  }

  lemma {:induction false} ConcatAppend<T>(parts: seq<seq<T>>, last: seq<T>)
    ensures Concat(parts + [last]) == Concat(parts) + last
  {
    if |parts| == 0 {
      assert parts + [last] == [last];
    } else {
      assert (parts + [last])[1..] == parts[1..] + [last];
      ConcatAppend(parts[1..], last);
    }
  }

  /**
   Reference definition of the split: consecutive slices of length `n`,
   the last one possibly shorter, none empty.
   */
  function Chunks<T>(a: seq<T>, n: nat): (r: seq<seq<T>>)
    requires n > 0
    ensures |r| == 0 <==> |a| == 0
    ensures forall i :: 0 <= i < |r| ==> 0 < |r[i]| <= n
    ensures forall i :: 0 <= i < |r| - 1 ==> |r[i]| == n
    decreases |a|
  {
    if |a| == 0 then []
    else if |a| <= n then [a]
    else [a[..n]] + Chunks(a[n..], n)
  }

  /** Flattening the chunks gives back the array that was split. */
  lemma {:induction false} ConcatChunks<T>(a: seq<T>, n: nat)
    requires n > 0
    ensures Concat(Chunks(a, n)) == a
    decreases |a|
  {
    if |a| == 0 {
    } else if |a| <= n {
      assert Concat([a]) == a + Concat([]);
    } else {
      var r := Chunks(a, n);
      assert r[0] == a[..n] && r[1..] == Chunks(a[n..], n);
      ConcatChunks(a[n..], n);
      assert a[..n] + a[n..] == a;
    }
  }

  /** When the length is `k * n`, there are `k` chunks of exactly `n` elements. */
  lemma {:induction false} ChunksExact<T>(a: seq<T>, n: nat, k: nat)
    requires n > 0 && |a| == k * n
    ensures |Chunks(a, n)| == k
    ensures forall i :: 0 <= i < k ==> |Chunks(a, n)[i]| == n
  {
    if k > 1 {
      assert |a[n..]| == (k - 1) * n;
      ChunksExact(a[n..], n, k - 1);
    } else if k == 1 {
      assert |a| == n;
    }
  }

  /**
   The loop of `chunkArray`: `for (i = 0; i < a.length; i += n)
   chunks.push(a.slice(i, i + n))`. It agrees with the reference split, and
   so flattening its result yields `a` again.
   */
  method ChunkArray<T>(a: seq<T>, n: nat) returns (chunks: seq<seq<T>>)
    requires n > 0
    ensures chunks == Chunks(a, n)
    ensures Concat(chunks) == a
  {
    chunks := [];
    var i := 0;
    while i < |a|
      invariant 0 <= i
      invariant i < |a| ==> chunks + Chunks(a[i..], n) == Chunks(a, n)
      invariant i >= |a| ==> chunks == Chunks(a, n)
      decreases |a| - i
    {
      var end := if i + n < |a| then i + n else |a|;
      var tail := a[i..];
      ghost var prev := chunks;
      chunks := chunks + [a[i..end]];
      if |tail| <= n {
        assert tail == a[i..end];
        assert Chunks(tail, n) == [a[i..end]];
        i := i + n;
      } else {
        assert tail[..n] == a[i..end] && tail[n..] == a[i + n..];
        assert Chunks(tail, n) == [a[i..end]] + Chunks(a[i + n..], n);
        assert prev + ([a[i..end]] + Chunks(a[i + n..], n)) == chunks + Chunks(a[i + n..], n);
        i := i + n;
      }
    }
    if |a| == 0 {
      assert chunks == Chunks(a, n);
    }
    ConcatChunks(a, n);
  }
}
