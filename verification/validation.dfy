/**
 Admission-time input validation of the relay (src/ChatRoom.js):
 `validateNickname` and `validateUUID`.
 */
module Validation {
  import opened Common
  import Encoding

  const MaxNicknameLength := 50

  // ---------------------------------------------------------------------------
  // Nicknames
  // ---------------------------------------------------------------------------

  /** JavaScript's `length`: UTF-16 code units, two for a character beyond U+FFFF. */
  function Utf16Length(s: string): (n: nat)
    ensures n >= |s|
  {
    if |s| == 0 then 0
    else (if s[0] as int > 0xFFFF then 2 else 1) + Utf16Length(s[1..])
  }

  /** The character class `[a-zA-Z0-9_一-龥]`. */
  predicate NicknameChar(c: char) {
    || ('a' <= c <= 'z')
    || ('A' <= c <= 'Z')
    || ('0' <= c <= '9')
    || c == '_'
    || (0x4E00 <= c as int <= 0x9FA5)
  }

  /** A left-to-right scan for a character outside the class. */
  function AllNicknameChars(s: string): (ok: bool)
    ensures ok <==> forall i :: 0 <= i < |s| ==> NicknameChar(s[i])
  {
    if |s| == 0 then true
    else NicknameChar(s[0]) && AllNicknameChars(s[1..])
  }

  /** Allowed characters are all in the Basic Multilingual Plane. */
  lemma {:induction false} AllowedLengthIsCharCount(s: string)
    ensures (forall i :: 0 <= i < |s| ==> NicknameChar(s[i])) ==> Utf16Length(s) == |s|
  {
    if |s| > 0 {
      AllowedLengthIsCharCount(s[1..]);
      assert forall i :: 0 <= i < |s| - 1 ==> s[1..][i] == s[i + 1];
    }
  }

  datatype NicknameCheck = ValidNickname | EmptyNickname | NicknameTooLong | NicknameBadChars

  /**
   `validateNickname`: the checks run in the order empty, too long (more
   than 50 UTF-16 units), bad characters; a nickname is valid iff it has 1 to
   50 characters, all from the allowed class.
   */
  function ValidateNickname(s: string): (r: NicknameCheck)
    ensures r == ValidNickname <==>
      0 < |s| <= MaxNicknameLength && forall i :: 0 <= i < |s| ==> NicknameChar(s[i])
    ensures r == EmptyNickname <==> |s| == 0
    ensures r == NicknameTooLong <==> |s| > 0 && Utf16Length(s) > MaxNicknameLength
    ensures r == NicknameBadChars <==>
      |s| > 0 && Utf16Length(s) <= MaxNicknameLength && exists i :: 0 <= i < |s| && !NicknameChar(s[i])
  {
    AllowedLengthIsCharCount(s);
    if |s| == 0 then EmptyNickname
    else if Utf16Length(s) > MaxNicknameLength then NicknameTooLong
    else if !AllNicknameChars(s) then NicknameBadChars
    else ValidNickname
  }

  // ---------------------------------------------------------------------------
  // UUIDs
  // ---------------------------------------------------------------------------

  predicate IsHexChar(c: char) {
    Encoding.IsLowerHex(c) || Encoding.IsUpperHex(c)
  }

  predicate AllHex(s: string) {
    forall i :: 0 <= i < |s| ==> IsHexChar(s[i])
  }

  /** Index of a '-' in the 8-4-4-4-12 layout. */
  predicate DashPosition(i: int) {
    i == 8 || i == 13 || i == 18 || i == 23
  }

  /** 36 characters, '-' exactly at the dash positions, hexadecimal elsewhere. */
  predicate UuidLayout(s: string) {
    && |s| == 36
    && forall i :: 0 <= i < |s| ==> if DashPosition(i) then s[i] == '-' else IsHexChar(s[i])
  }

  predicate UuidGroups(s: string)
    requires |s| == 36
  {
    && AllHex(s[..8]) && s[8] == '-'
    && AllHex(s[9..13]) && s[13] == '-'
    && AllHex(s[14..18]) && s[18] == '-'
    && AllHex(s[19..23]) && s[23] == '-'
    && AllHex(s[24..])
  }

  lemma UuidGroupsMatchLayout(s: string)
    ensures |s| == 36 ==> (UuidGroups(s) <==> UuidLayout(s))
  {
    if |s| == 36 {
      if UuidGroups(s) {
        forall i | 0 <= i < |s|
          ensures if DashPosition(i) then s[i] == '-' else IsHexChar(s[i])
        {
          if i < 8 { assert s[..8][i] == s[i]; }
          else if 8 < i < 13 { assert s[9..13][i - 9] == s[i]; }
          else if 13 < i < 18 { assert s[14..18][i - 14] == s[i]; }
          else if 18 < i < 23 { assert s[19..23][i - 19] == s[i]; }
          else if 23 < i { assert s[24..][i - 24] == s[i]; }
        }
      }
      if UuidLayout(s) {
        assert forall j :: 0 <= j < 8 ==> s[..8][j] == s[j] && !DashPosition(j);
        assert forall j :: 0 <= j < 4 ==> s[9..13][j] == s[j + 9] && !DashPosition(j + 9);
        assert forall j :: 0 <= j < 4 ==> s[14..18][j] == s[j + 14] && !DashPosition(j + 14);
        assert forall j :: 0 <= j < 4 ==> s[19..23][j] == s[j + 19] && !DashPosition(j + 19);
        assert forall j :: 0 <= j < 12 ==> s[24..][j] == s[j + 24] && !DashPosition(j + 24);
      }
    }
  }

  /**
   `validateUUID`: the regular expression
   `^[0-9a-f]{8}-[0-9a-f]{4}-[0-9a-f]{4}-[0-9a-f]{4}-[0-9a-f]{12}$` with the
   `i` flag, group by group. Equivalently: 36 characters, '-' exactly at
   the four dash positions, a hexadecimal digit of either case everywhere
   else. Version and variant digits are not inspected.
   */
  function ValidateUuid(s: string): (ok: bool)
    ensures ok <==> UuidLayout(s)
  {
    UuidGroupsMatchLayout(s);
    |s| == 36 && UuidGroups(s)
  }

  /** The canonical rendering of 16 bytes as a UUID string. */
  function FormatUuid(b: seq<Byte>): (s: string)
    requires |b| == 16
    ensures |s| == 36
  {
    Encoding.Hex(b[..4]) + "-" + Encoding.Hex(b[4..6]) + "-" + Encoding.Hex(b[6..8]) + "-"
      + Encoding.Hex(b[8..10]) + "-" + Encoding.Hex(b[10..])
  }

  /** Every 16-byte value rendered as a UUID is accepted, whatever its version bits. */
  lemma UuidAcceptsEveryRendering(b: seq<Byte>)
    requires |b| == 16
    ensures ValidateUuid(FormatUuid(b))
  {
    var s := FormatUuid(b);
    var h0, h1, h2, h3, h4 := Encoding.Hex(b[..4]), Encoding.Hex(b[4..6]), Encoding.Hex(b[6..8]),
      Encoding.Hex(b[8..10]), Encoding.Hex(b[10..]);
    assert s[..8] == h0;
    assert s[9..13] == h1;
    assert s[14..18] == h2;
    assert s[19..23] == h3;
    assert s[24..] == h4;
  }
}
