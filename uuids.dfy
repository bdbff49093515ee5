/**
 * 128-bit identifiers as 32 hexadecimal digits, with the `Uuid::to_string` rendering
 * (lower-case, hyphenated 8-4-4-4-12) and the `Uuid::parse_str` forms the model accepts
 * (hyphenated and simple, hex digits in either case).
 */
module Uuids {
  import opened Wrappers

  newtype Nibble = x: int | 0 <= x < 16

  type Uuid = s: seq<Nibble> | |s| == 32 witness seq(32, _ => 0 as Nibble)

  function HexChar(n: Nibble): char {
    if n < 10 then ('0' as int + n as int) as char else ('a' as int + n as int - 10) as char
  }

  /** The value of one hex digit, accepting both cases. */
  function HexValue(c: char): Option<Nibble> {
    if '0' <= c <= '9' then Some((c as int - '0' as int) as Nibble)
    else if 'a' <= c <= 'f' then Some((c as int - 'a' as int + 10) as Nibble)
    else if 'A' <= c <= 'F' then Some((c as int - 'A' as int + 10) as Nibble)
    else None
  }

  function Encode(ns: seq<Nibble>): (s: string)
    ensures |s| == |ns|
    ensures forall i :: 0 <= i < |ns| ==> s[i] == HexChar(ns[i])
  {
    if ns == [] then [] else [HexChar(ns[0])] + Encode(ns[1..])
  }

  /** Every character read as a hex digit; None as soon as one is not. */
  function Decode(s: string): (r: Option<seq<Nibble>>)
    ensures r.Some? ==> |r.value| == |s|
    ensures r.Some? <==> forall i :: 0 <= i < |s| ==> HexValue(s[i]).Some?
    ensures r.Some? ==> forall i :: 0 <= i < |s| ==> HexValue(s[i]) == Some(r.value[i])
  {
    if forall i :: 0 <= i < |s| ==> HexValue(s[i]).Some?
    then Some(seq(|s|, i requires 0 <= i < |s| => HexValue(s[i]).value))
    else None
  }

  /** Reading back a printed digit gives the digit. */
  lemma HexRoundTrip(n: Nibble)
    ensures HexValue(HexChar(n)) == Some(n)
  {
  }

  /** Decoding what `Encode` printed gives back the digits. */
  lemma DecodeEncode(ns: seq<Nibble>)
    ensures Decode(Encode(ns)) == Some(ns)
  {
    var e := Encode(ns);
    forall i | 0 <= i < |e| ensures HexValue(e[i]) == Some(ns[i]) {
      HexRoundTrip(ns[i]);
    }
    assert Decode(e).Some?;
    assert Decode(e).value == ns;
  }

  /** `Uuid::to_string`: the lower-case hyphenated form. */
  function ToString(u: Uuid): (s: string)
    ensures |s| == 36
    ensures s[8] == '-' && s[13] == '-' && s[18] == '-' && s[23] == '-'
    ensures forall j :: 0 <= j < 32 ==> s[DigitPos(j)] == HexChar(u[j])
  {
    var a, b, c, d, e := Encode(u[..8]), Encode(u[8..12]), Encode(u[12..16]), Encode(u[16..20]), Encode(u[20..]);
    HyphenatedDigits(u, a, b, c, d, e);
    a + "-" + b + "-" + c + "-" + d + "-" + e
  }

  /** Five digit groups of 8, 4, 4, 4 and 12, joined by hyphens, put digit `j` at `DigitPos(j)`. */
  lemma HyphenatedDigits(ns: seq<Nibble>, a: string, b: string, c: string, d: string, e: string)
    requires |ns| == 32 && |a| == 8 && |b| == 4 && |c| == 4 && |d| == 4 && |e| == 12
    requires forall i :: 0 <= i < 8 ==> a[i] == HexChar(ns[i])
    requires forall i :: 0 <= i < 4 ==> b[i] == HexChar(ns[8 + i])
    requires forall i :: 0 <= i < 4 ==> c[i] == HexChar(ns[12 + i])
    requires forall i :: 0 <= i < 4 ==> d[i] == HexChar(ns[16 + i])
    requires forall i :: 0 <= i < 12 ==> e[i] == HexChar(ns[20 + i])
    ensures var s := a + "-" + b + "-" + c + "-" + d + "-" + e;
      forall j :: 0 <= j < 32 ==> s[DigitPos(j)] == HexChar(ns[j])
  {
    var s := a + "-" + b + "-" + c + "-" + d + "-" + e;
    forall j | 0 <= j < 32 ensures s[DigitPos(j)] == HexChar(ns[j]) {
      if j < 8 {
        assert s[j] == a[j];
      } else if j < 12 {
        assert s[j + 1] == b[j - 8];
      } else if j < 16 {
        assert s[j + 2] == c[j - 12];
      } else if j < 20 {
        assert s[j + 3] == d[j - 16];
      } else {
        assert s[j + 4] == e[j - 20];
      }
    }
  }

  /** The 32 digits of a hyphenated form, with the four hyphens left out. */
  function Digits(s: string): string
    requires |s| == 36
  {
    s[..8] + s[9..13] + s[14..18] + s[19..23] + s[24..]
  }

  /** Every character is a hex digit, in either case. */
  predicate AllHex(s: string) {
    forall i :: 0 <= i < |s| ==> HexValue(s[i]).Some?
  }

  /** The position of the `j`-th digit (0 <= j < 32) in the hyphenated 8-4-4-4-12 form. */
  function DigitPos(j: int): int {
    if j < 8 then j else if j < 12 then j + 1 else if j < 16 then j + 2 else if j < 20 then j + 3 else j + 4
  }

  /** The hyphenated form: 36 characters, hyphens at 8, 13, 18 and 23, hex digits everywhere else. */
  predicate HyphenatedHex(s: string) {
    && |s| == 36
    && s[8] == '-' && s[13] == '-' && s[18] == '-' && s[23] == '-'
    && forall j :: 0 <= j < 32 ==> HexValue(s[DigitPos(j)]).Some?
  }

  /** The `j`-th of the 32 digits sits at `DigitPos(j)`. */
  lemma DigitsAt(s: string)
    requires |s| == 36
    ensures |Digits(s)| == 32
    ensures forall j :: 0 <= j < 32 ==> Digits(s)[j] == s[DigitPos(j)]
  {
  }

  /** `Uuid::parse_str` for the hyphenated and the simple (32-digit) forms. */
  function Parse(s: string): (r: Option<Uuid>)
    ensures r.Some? ==> |s| == 32 || |s| == 36
    ensures r.Some? <==> (|s| == 32 && AllHex(s)) || HyphenatedHex(s)
    ensures r.Some? && |s| == 32 ==> forall j :: 0 <= j < 32 ==> HexValue(s[j]) == Some(r.value[j])
    ensures r.Some? && |s| == 36 ==> forall j :: 0 <= j < 32 ==> HexValue(s[DigitPos(j)]) == Some(r.value[j])
  {
    var digits :=
      if |s| == 32 then Some(s)
      else if |s| == 36 && s[8] == '-' && s[13] == '-' && s[18] == '-' && s[23] == '-'
      then DigitsAt(s); Some(Digits(s))
      else None;
    if digits.None? then None
    else match Decode(digits.value)
      case Some(ns) => Some(ns)
      case None => None
  }

  /** Leaving out the four hyphens of the printed form leaves the 32 printed digits. */
  lemma DigitsOfToString(u: Uuid)
    ensures Digits(ToString(u)) == Encode(u)
  {
    var s := ToString(u);
    DigitsAt(s);
    assert forall j :: 0 <= j < 32 ==> Digits(s)[j] == Encode(u)[j];
  }

  /** Parsing what `to_string` printed gives back the same identifier. */
  lemma ParseToString(u: Uuid)
    ensures Parse(ToString(u)) == Some(u)
  {
    var s := ToString(u);
    assert s[8] == '-' && s[13] == '-' && s[18] == '-' && s[23] == '-';
    DigitsOfToString(u);
    DecodeEncode(u);
  }

  /** A lower-case or decimal hex digit is the printed form of its value. */
  lemma HexCharOfValue(c: char, n: Nibble)
    requires HexValue(c) == Some(n) && !('A' <= c <= 'F')
    ensures HexChar(n) == c
  {
  }

  /**
   * The converse round trip: a parsed string without upper-case hex digits is the uuid's
   * printed form (hyphenated) or its 32 printed digits (simple form).
   */
  lemma ToStringOfParse(s: string, u: Uuid)
    requires Parse(s) == Some(u)
    requires forall i :: 0 <= i < |s| ==> !('A' <= s[i] <= 'F')
    ensures |s| == 36 ==> ToString(u) == s
    ensures |s| == 32 ==> Encode(u) == s
  {
    if |s| == 36 {
      forall i | 0 <= i < 36
        ensures ToString(u)[i] == s[i]
      {
        PrintedAt(s, u, i);
      }
    } else {
      forall j | 0 <= j < 32
        ensures Encode(u)[j] == s[j]
      {
        HexCharOfValue(s[j], u[j]);
      }
    }
  }

  /** One position of a parsed, hyphenated, lower-case string is printed back as it was. */
  lemma PrintedAt(s: string, u: Uuid, i: int)
    requires Parse(s) == Some(u) && |s| == 36 && 0 <= i < 36 && !('A' <= s[i] <= 'F')
    ensures ToString(u)[i] == s[i]
  {
    if i != 8 && i != 13 && i != 18 && i != 23 {
      var j := if i < 8 then i else if i < 13 then i - 1 else if i < 18 then i - 2 else if i < 23 then i - 3 else i - 4;
      assert DigitPos(j) == i;
      HexCharOfValue(s[i], u[j]);
    }
  }

  /** Different identifiers print differently. */
  lemma ToStringInjective(u: Uuid, v: Uuid)
    requires ToString(u) == ToString(v)
    ensures u == v
  {
    ParseToString(u);
    ParseToString(v);
  }
}
