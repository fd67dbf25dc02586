/**
 The textual formats of src/utils/security.js and of the client's
 `CryptoHelper.generateNonce`: the nonce value `${timestamp}-${hex}`, the
 key fingerprint (hex digest in upper-case groups of four separated by
 single spaces) and the session token with its age check. Random bytes and
 digests are inputs; the SHA-256 and WebCrypto calls that produce them are
 not part of this model.
 */
module SecurityFormat {
  import opened Common
  import opened Encoding
  import Chunking
  import Nonces

  const NonceRandomBytes := 16
  const TokenRandomBytes := 32
  const DefaultTokenMaxAge := 3600000
  const Sha256Bytes := 32

  // ---------------------------------------------------------------------------
  // Nonce value
  // ---------------------------------------------------------------------------

  /** The value of a generated nonce: the decimal timestamp, '-', the random bytes in hex. */
  function NonceValue(timestamp: int, random: seq<Byte>): (v: string)
    ensures |v| == |IntText(timestamp)| + 1 + 2 * |random|
    ensures v[..|IntText(timestamp)|] == IntText(timestamp)
    ensures v[|IntText(timestamp)|] == '-'
    ensures forall i :: |IntText(timestamp)| < i < |v| ==> IsLowerHex(v[i])
  {
    IntText(timestamp) + "-" + Hex(random)
  }

  /**
   `generateNonce(offset)`: stamped with the local clock plus the server
   offset (the server-side generator is the case `offset == 0`). The value
   encodes both the stamp and the random bytes, which parse back out of it.
   */
  function GenerateNonce(localNow: int, offset: int, random: seq<Byte>): (n: Nonces.Nonce)
    requires |random| == NonceRandomBytes
    ensures n.timestamp == localNow + offset
    ensures |n.value| == |IntText(n.timestamp)| + 33
    ensures ParseNonceValue(n.value) == Some((n.timestamp, random))
  {
    var ts := localNow + offset;
    NonceValueRoundTrip(ts, random);
    Nonces.Nonce(ts, NonceValue(ts, random))
  }

  /** Position of the last '-' in `s`. */
  function LastDash(s: string): (r: Option<nat>)
    ensures r.Some? ==> r.value < |s| && s[r.value] == '-'
    ensures r.Some? ==> forall i :: r.value < i < |s| ==> s[i] != '-'
    ensures r.None? ==> forall i :: 0 <= i < |s| ==> s[i] != '-'
  {
    if |s| == 0 then None
    else if s[|s| - 1] == '-' then Some(|s| - 1)
    else LastDash(s[..|s| - 1])
  }

  /** Splits a nonce value at its last '-' into the stamp and the random bytes. */
  function ParseNonceValue(v: string): Option<(int, seq<Byte>)> {
    match LastDash(v)
    case None => None
    case Some(k) =>
      match (ParseInt(v[..k]), Unhex(v[k + 1..]))
      case (Some(ts), Some(bytes)) => Some((ts, bytes))
      case _ => None
  }

  lemma {:induction false} LastDashOfTail(prefix: string, tail: string)
    requires forall i :: 0 <= i < |tail| ==> tail[i] != '-'
    ensures LastDash(prefix + "-" + tail) == Some(|prefix|)
    decreases |tail|
  {
    var s := prefix + "-" + tail;
    if |tail| > 0 {
      assert s[..|s| - 1] == prefix + "-" + tail[..|tail| - 1];
      LastDashOfTail(prefix, tail[..|tail| - 1]);
    }
  }

  /** A nonce value parses back to the stamp and random bytes it was built from. */
  lemma NonceValueRoundTrip(ts: int, random: seq<Byte>)
    ensures ParseNonceValue(NonceValue(ts, random)) == Some((ts, random))
  {
    var h := Hex(random);
    var v := NonceValue(ts, random);
    forall i | 0 <= i < |h|
      ensures h[i] != '-'
    {
      assert IsLowerHex(h[i]);
    }
    LastDashOfTail(IntText(ts), h);
    var k := |IntText(ts)|;
    assert v[..k] == IntText(ts);
    assert v[k + 1..] == h;
    ParseIntOfIntText(ts);
    UnhexHex(random);
  }

  // ---------------------------------------------------------------------------
  // Fingerprint
  // ---------------------------------------------------------------------------

  /** `parts.join(sep)`. */
  function Join(parts: seq<string>, sep: string): string {
    if |parts| == 0 then ""
    else if |parts| == 1 then parts[0]
    else parts[0] + sep + Join(parts[1..], sep)
  }

  /**
   `generateFingerprint` on the digest bytes: lower-case hex, split into
   groups of four (`/.{1,4}/g`), joined with single spaces, upper-cased. For
   an empty digest the regular expression matches nothing and the call
   throws; that is `None` here.
   */
  function Fingerprint(digest: seq<Byte>): (f: Option<string>)
    ensures f.None? <==> |digest| == 0
  {
    if |digest| == 0 then None
    else Some(UpperString(Join(Chunking.Chunks(Hex(digest), 4), " ")))
  }

  /** `s` with every space removed. */
  function Strip(s: string): (r: string)
    ensures forall i :: 0 <= i < |r| ==> r[i] != ' '
  {
    if |s| == 0 then "" else (if s[0] == ' ' then "" else [s[0]]) + Strip(s[1..])
  }

  /** Reads a fingerprint back into digest bytes: spaces dropped, hex decoded in either case. */
  function ParseFingerprint(f: string): Option<seq<Byte>> {
    Unhex(Strip(f))
  }

  lemma {:induction false} StripAppend(a: string, b: string)
    ensures Strip(a + b) == Strip(a) + Strip(b)
  {
    if |a| > 0 {
      assert (a + b)[1..] == a[1..] + b;
      StripAppend(a[1..], b);
    } else {
      assert a + b == b;
    }
  }

  lemma {:induction false} StripNoSpace(s: string)
    requires forall i :: 0 <= i < |s| ==> s[i] != ' '
    ensures Strip(s) == s
  {
    if |s| > 0 {
      StripNoSpace(s[1..]);
    }
  }

  lemma {:induction false} StripUpper(s: string)
    ensures Strip(UpperString(s)) == UpperString(Strip(s))
  {
    if |s| > 0 {
      assert UpperString(s)[1..] == UpperString(s[1..]);
      StripUpper(s[1..]);
    }
  }

  /** Joining space-free parts with spaces and stripping the spaces is flattening. */
  lemma {:induction false} StripJoin(parts: seq<string>)
    requires forall p, i :: p in parts && 0 <= i < |p| ==> p[i] != ' '
    ensures Strip(Join(parts, " ")) == Chunking.Concat(parts)
  {
    if |parts| == 1 {
      StripNoSpace(parts[0]);
      assert Chunking.Concat(parts) == parts[0] + Chunking.Concat([]);
    } else if |parts| > 1 {
      assert parts[0] in parts;
      StripJoin(parts[1..]);
      StripAppend(parts[0] + " ", Join(parts[1..], " "));
      StripAppend(parts[0], " ");
      StripNoSpace(parts[0]);
    }
  }

  /** Every digest is recovered from its fingerprint. */
  lemma FingerprintRoundTrip(digest: seq<Byte>)
    requires |digest| > 0
    ensures ParseFingerprint(Fingerprint(digest).value) == Some(digest)
  {
    var h := Hex(digest);
    var parts := Chunking.Chunks(h, 4);
    Chunking.ConcatChunks(h, 4);
    ChunksOfHexHaveNoSpace(h, 4);
    StripJoin(parts);
    StripUpper(Join(parts, " "));
    UnhexIgnoresCase(h);
    UnhexHex(digest);
  }

  lemma {:induction false} ChunksOfHexHaveNoSpace(h: string, n: nat)
    requires n > 0
    requires forall i :: 0 <= i < |h| ==> IsLowerHex(h[i])
    ensures forall p, i :: p in Chunking.Chunks(h, n) && 0 <= i < |p| ==> IsLowerHex(p[i])
    decreases |h|
  {
    if |h| > n {
      ChunksOfHexHaveNoSpace(h[n..], n);
      forall p, i | p in Chunking.Chunks(h, n) && 0 <= i < |p|
        ensures IsLowerHex(p[i])
      {
        if p == h[..n] {
          assert p[i] == h[i];
        } else {
          assert p in Chunking.Chunks(h[n..], n);
        }
      }
    }
  }

  /** Layout of `k` groups of four joined by spaces: every fifth character is the separator. */
  lemma {:induction false} JoinLayout(parts: seq<string>)
    requires |parts| > 0
    requires forall j :: 0 <= j < |parts| ==> |parts[j]| == 4
    requires forall p, i :: p in parts && 0 <= i < |p| ==> IsLowerHex(p[i])
    ensures |Join(parts, " ")| == 5 * |parts| - 1
    ensures forall i :: 0 <= i < |Join(parts, " ")| ==>
      (Join(parts, " ")[i] == ' ' <==> i % 5 == 4) && (i % 5 != 4 ==> IsLowerHex(Join(parts, " ")[i]))
  {
    var j := Join(parts, " ");
    assert parts[0] in parts;
    if |parts| > 1 {
      JoinLayout(parts[1..]);
      var rest := Join(parts[1..], " ");
      assert j == parts[0] + " " + rest;
      forall i | 0 <= i < |j|
        ensures (j[i] == ' ' <==> i % 5 == 4) && (i % 5 != 4 ==> IsLowerHex(j[i]))
      {
        if i < 4 {
          assert j[i] == parts[0][i];
        } else if i > 4 {
          assert j[i] == rest[i - 5];
        }
      }
    }
  }

  /**
   The fingerprint of a SHA-256 digest: 16 groups of four upper-case hex
   digits separated by single spaces, 79 characters in all.
   */
  lemma Sha256FingerprintLayout(digest: seq<Byte>)
    requires |digest| == Sha256Bytes
    ensures var f := Fingerprint(digest).value;
      && |f| == 79
      && |Chunking.Chunks(Hex(digest), 4)| == 16
      && (forall i :: 0 <= i < 79 ==> (f[i] == ' ' <==> i % 5 == 4))
      && (forall i :: 0 <= i < 79 && i % 5 != 4 ==> IsUpperHex(f[i]))
  {
    var h := Hex(digest);
    Chunking.ChunksExact(h, 4, 16);
    var parts := Chunking.Chunks(h, 4);
    ChunksOfHexHaveNoSpace(h, 4);
    JoinLayout(parts);
    var f := Fingerprint(digest).value;
    forall i | 0 <= i < 79
      ensures (f[i] == ' ' <==> i % 5 == 4) && (i % 5 != 4 ==> IsUpperHex(f[i]))
    {
      assert f[i] == Upper(Join(parts, " ")[i]);
    }
  }

  // ---------------------------------------------------------------------------
  // Session token
  // ---------------------------------------------------------------------------

  /** A token object; `created` is absent when the field is missing. */
  datatype SessionToken = SessionToken(value: string, created: Option<int>)

  /** `generateSessionToken`: 32 random bytes as 64 lower-case hex digits, stamped now. */
  function NewSessionToken(random: seq<Byte>, now: int): (t: SessionToken)
    requires |random| == TokenRandomBytes
    ensures |t.value| == 64
    ensures forall i :: 0 <= i < 64 ==> IsLowerHex(t.value[i])
    ensures t.created == Some(now)
    ensures Unhex(t.value) == Some(random)
  {
    UnhexHex(random);
    SessionToken(Hex(random), Some(now))
  }

  /**
   `verifySessionToken(token, maxAge)`: a missing token, or a missing or
   zero (falsy) `created`, is refused; otherwise the token is valid while
   its age is at most `maxAge`. A token stamped in the future is valid.
   */
  function VerifySessionToken(token: Option<SessionToken>, now: int, maxAge: int): (ok: bool)
    ensures ok ==> token.Some? && token.value.created.Some?
    ensures token.Some? && token.value.created.Some? && token.value.created.value != 0 ==>
      (ok <==> now - token.value.created.value <= maxAge)
    ensures token.None? || token.value.created.None? || token.value.created == Some(0) ==> !ok
  {
    match token
    case None => false
    case Some(t) =>
      match t.created
      case None => false
      case Some(c) => if c == 0 then false else now - c <= maxAge
  }

  /** The default one-hour age bound. */
  function VerifySessionTokenDefault(token: Option<SessionToken>, now: int): bool {
    VerifySessionToken(token, now, DefaultTokenMaxAge)
  }

  /**
   A freshly generated token (stamped at a non-zero clock) is accepted for
   exactly one hour after it was created, and once refused it stays refused.
   */
  lemma TokenValidForOneHour(random: seq<Byte>, created: int, now: int, later: int)
    requires |random| == TokenRandomBytes && created != 0
    ensures VerifySessionTokenDefault(Some(NewSessionToken(random, created)), now) <==> now <= created + 3600000
    ensures now <= later && !VerifySessionTokenDefault(Some(NewSessionToken(random, created)), now) ==>
      !VerifySessionTokenDefault(Some(NewSessionToken(random, created)), later)
  {
  }
}
