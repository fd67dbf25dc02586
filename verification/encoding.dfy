/**
 Text encodings used by the security helpers: the lower-case, zero-padded
 hexadecimal rendering `b.toString(16).padStart(2, '0')` of bytes, ASCII
 upper-casing, and the decimal rendering of integer timestamps that a
 template literal `${timestamp}` produces. Each rendering comes with the
 parser that inverts it.
 */
module Encoding {
  import opened Common

  // ---------------------------------------------------------------------------
  // Hexadecimal
  // ---------------------------------------------------------------------------

  predicate IsLowerHex(c: char) {
    ('0' <= c <= '9') || ('a' <= c <= 'f')
  }

  predicate IsUpperHex(c: char) {
    ('0' <= c <= '9') || ('A' <= c <= 'F')
  }

  /** Value of a hexadecimal digit in either case, `None` for any other character. */
  function HexValue(c: char): (r: Option<nat>)
    ensures r.Some? ==> r.value < 16
    ensures r.Some? <==> IsLowerHex(c) || IsUpperHex(c)
  {
    if '0' <= c <= '9' then Some(c as int - 48)
    else if 'a' <= c <= 'f' then Some(c as int - 87)
    else if 'A' <= c <= 'F' then Some(c as int - 55)
    else None
  }

  /** The lower-case digit `d.toString(16)` for `d < 16`. */
  function HexDigit(d: nat): (c: char)
    requires d < 16
    ensures IsLowerHex(c)
    ensures HexValue(c) == Some(d)
  {
    if d < 10 then (48 + d) as char else (87 + d) as char
  }

  /** `b.toString(16).padStart(2, '0')`: always two lower-case digits. */
  function HexByte(b: Byte): (s: string)
    ensures |s| == 2
    ensures IsLowerHex(s[0]) && IsLowerHex(s[1])
    ensures HexValue(s[0]) == Some(b / 16) && HexValue(s[1]) == Some(b % 16)
  {
    [HexDigit(b / 16), HexDigit(b % 16)]
  }

  /** `bytes.map(b => b.toString(16).padStart(2, '0')).join('')`. */
  function Hex(bs: seq<Byte>): (s: string)
    ensures |s| == 2 * |bs|
    ensures forall i :: 0 <= i < |s| ==> IsLowerHex(s[i])
  {
    if |bs| == 0 then "" else HexByte(bs[0]) + Hex(bs[1..])
  }

  /** Decodes pairs of hexadecimal digits (either case) back into bytes. */
  function Unhex(s: string): Option<seq<Byte>>
  {
    if |s| == 0 then Some([])
    else if |s| == 1 then None
    else
      match (HexValue(s[0]), HexValue(s[1]), Unhex(s[2..]))
      case (Some(hi), Some(lo), Some(rest)) => Some([16 * hi + lo] + rest)
      case _ => None
  }

  /** Hex rendering and decoding are inverse. */
  lemma {:induction false} UnhexHex(bs: seq<Byte>)
    ensures Unhex(Hex(bs)) == Some(bs)
  {
    if |bs| > 0 {
      var s := Hex(bs);
      assert s == HexByte(bs[0]) + Hex(bs[1..]);
      assert s[2..] == Hex(bs[1..]);
      UnhexHex(bs[1..]);
      assert 16 * (bs[0] / 16) + bs[0] % 16 == bs[0];
      assert [bs[0]] + bs[1..] == bs;
    }
  }

  // ---------------------------------------------------------------------------
  // Upper case
  // ---------------------------------------------------------------------------

  /** `toUpperCase` on one character; only ASCII letters are changed here. */
  function Upper(c: char): (u: char)
    ensures 'a' <= c <= 'z' ==> u as int == c as int - 32
    ensures !('a' <= c <= 'z') ==> u == c
  {
    if 'a' <= c <= 'z' then (c as int - 32) as char else c
  }

  function UpperString(s: string): (u: string)
    ensures |u| == |s|
    ensures forall i :: 0 <= i < |s| ==> u[i] == Upper(s[i])
  {
    if |s| == 0 then "" else [Upper(s[0])] + UpperString(s[1..])
  }

  /** Upper-casing never changes what a hexadecimal string decodes to. */
  lemma {:induction false} UnhexIgnoresCase(s: string)
    ensures Unhex(UpperString(s)) == Unhex(s)
  {
    if |s| >= 2 {
      var u := UpperString(s);
      assert u[2..] == UpperString(s[2..]);
      assert HexValue(u[0]) == HexValue(s[0]);
      assert HexValue(u[1]) == HexValue(s[1]);
      UnhexIgnoresCase(s[2..]);
    }
  }

  // ---------------------------------------------------------------------------
  // Decimal
  // ---------------------------------------------------------------------------

  predicate IsDigit(c: char) {
    '0' <= c <= '9'
  }

  predicate AllDigits(s: string) {
    forall i :: 0 <= i < |s| ==> IsDigit(s[i])
  }

  /** The decimal rendering `String(n)` of a natural number: no sign, no leading zero. */
  function Decimal(n: nat): (s: string)
    ensures |s| >= 1 && AllDigits(s)
    ensures |s| > 1 ==> s[0] != '0'
  {
    if n < 10 then [(48 + n) as char]
    else Decimal(n / 10) + [(48 + n % 10) as char]
  }

  /** Value of a string of decimal digits, most significant first. */
  function DigitsValue(s: string): nat
    requires AllDigits(s)
  {
    if |s| == 0 then 0
    else DigitsValue(s[..|s| - 1]) * 10 + (s[|s| - 1] as int - 48)
  }

  function ParseDecimal(s: string): Option<nat> {
    if |s| > 0 && AllDigits(s) then Some(DigitsValue(s)) else None
  }

  lemma {:induction false} ParseDecimalOfDecimal(n: nat)
    ensures ParseDecimal(Decimal(n)) == Some(n)
  {
    var s := Decimal(n);
    if n < 10 {
      assert s[..|s| - 1] == [];
    } else {
      assert s[..|s| - 1] == Decimal(n / 10);
      ParseDecimalOfDecimal(n / 10);
      assert DigitsValue(s) == (n / 10) * 10 + n % 10;
    }
  }

  /** `${t}` for an integer `t` (a leading '-' for negative values). */
  function IntText(t: int): (s: string)
    ensures |s| >= 1
    ensures forall i :: 0 < i < |s| ==> IsDigit(s[i])
    ensures IsDigit(s[0]) <==> t >= 0
    ensures s[0] == '-' <==> t < 0
  {
    if t < 0 then "-" + Decimal(-t) else Decimal(t)
  }

  function ParseInt(s: string): Option<int> {
    if |s| > 0 && s[0] == '-' then
      match ParseDecimal(s[1..])
      case Some(v) => Some(-(v as int))
      case None => None
    else
      match ParseDecimal(s)
      case Some(v) => Some(v)
      case None => None
  }

  lemma ParseIntOfIntText(t: int)
    ensures ParseInt(IntText(t)) == Some(t)
  {
    if t < 0 {
      assert IntText(t)[1..] == Decimal(-t);
      ParseDecimalOfDecimal(-t);
    } else {
      ParseDecimalOfDecimal(t);
    }
  }
}
