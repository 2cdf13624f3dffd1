/** Byte-level encodings used by the migrator: encoding/hex's DecodeString,
    fmt's %x (of a byte array and of an unsigned integer) and encoding/base64's
    StdEncoding (section 4 of RFC 4648, with '=' padding). */
module Encoding {
  import opened Wrappers

  type byte = x: int | 0 <= x < 256

  /** A SHA-1 digest: Go's [20]byte. Its zero value is twenty zero bytes. */
  type Digest = s: seq<byte> | |s| == 20 witness ZeroDigest

  const ZeroDigest: seq<byte> := [0, 0, 0, 0, 0, 0, 0, 0, 0, 0, 0, 0, 0, 0, 0, 0, 0, 0, 0, 0]

  // ---------------------------------------------------------------------
  // hex

  predicate IsHexDigit(ch: char)
  {
    '0' <= ch <= '9' || 'a' <= ch <= 'f' || 'A' <= ch <= 'F'
  }

  predicate IsLowerHexDigit(ch: char)
  {
    '0' <= ch <= '9' || 'a' <= ch <= 'f'
  }

  function HexDigitValue(ch: char): (v: nat)
    requires IsHexDigit(ch)
    ensures v < 16
  {
    if '0' <= ch <= '9' then (ch as int) - ('0' as int)
    else if 'a' <= ch <= 'f' then (ch as int) - ('a' as int) + 10
    else (ch as int) - ('A' as int) + 10
  }

  function HexDigitChar(d: nat): (ch: char)
    requires d < 16
    ensures IsLowerHexDigit(ch) && IsHexDigit(ch) && HexDigitValue(ch) == d
  {
    if d < 10 then ('0' as int + d) as char else ('a' as int + d - 10) as char
  }

  /** hex.DecodeString: succeeds exactly on an even number of hex digits (either case). */
  function HexDecode(s: string): (r: Option<seq<byte>>)
    ensures r.Some? <==> |s| % 2 == 0 && forall i :: 0 <= i < |s| ==> IsHexDigit(s[i])
    ensures r.Some? ==> 2 * |r.value| == |s|
    decreases |s|
  {
    if |s| == 0 then Some([])
    else if |s| == 1 || !IsHexDigit(s[0]) || !IsHexDigit(s[1]) then None
    else
      match HexDecode(s[2..])
      case None => None
      case Some(rest) =>
        assert forall i :: 2 <= i < |s| ==> s[i] == s[2..][i - 2];
        Some([HexDigitValue(s[0]) * 16 + HexDigitValue(s[1])] + rest)
  }

  /** fmt's %x of a byte array: two lower-case hex digits per byte. */
  function HexEncode(b: seq<byte>): (r: string)
    ensures |r| == 2 * |b|
    ensures forall i :: 0 <= i < |r| ==> IsLowerHexDigit(r[i])
  {
    if |b| == 0 then ""
    else [HexDigitChar(b[0] / 16), HexDigitChar(b[0] % 16)] + HexEncode(b[1..])
  }

  lemma {:induction false} HexRoundTrip(b: seq<byte>)
    ensures HexDecode(HexEncode(b)) == Some(b)
  {
    if |b| > 0 {
      HexRoundTrip(b[1..]);
      var s := HexEncode(b);
      assert s[2..] == HexEncode(b[1..]);
      assert b == [b[0]] + b[1..];
    }
  }

  /** The value of a string of hex digits, most significant first. */
  function HexValue(s: string): nat
    requires forall i :: 0 <= i < |s| ==> IsHexDigit(s[i])
  {
    if |s| == 0 then 0 else HexValue(s[..|s| - 1]) * 16 + HexDigitValue(s[|s| - 1])
  }

  /** fmt's %x of an unsigned integer: lower-case hex digits, no leading zeros, "0" for zero. */
  function NatToHex(n: nat): (r: string)
    ensures |r| > 0
    ensures forall i :: 0 <= i < |r| ==> IsLowerHexDigit(r[i]) && IsHexDigit(r[i])
  {
    if n < 16 then [HexDigitChar(n)] else NatToHex(n / 16) + [HexDigitChar(n % 16)]
  }

  /** %x prints n exactly, without a leading zero unless n is zero. */
  lemma {:induction false} NatToHexValue(n: nat)
    ensures HexValue(NatToHex(n)) == n
    ensures NatToHex(n)[0] == '0' <==> n == 0
  {
    if n >= 16 {
      NatToHexValue(n / 16);
      var s := NatToHex(n);
      assert s[..|s| - 1] == NatToHex(n / 16);
    }
  }

  // ---------------------------------------------------------------------
  // base64.StdEncoding

  /** The character of a 6-bit value in the standard alphabet "A-Za-z0-9+/". */
  function Base64Char(v: nat): (ch: char)
    requires v < 64
    ensures ch != '=' && ch != '|' && ch != '\n'
  {
    if v < 26 then ('A' as int + v) as char
    else if v < 52 then ('a' as int + v - 26) as char
    else if v < 62 then ('0' as int + v - 52) as char
    else if v == 62 then '+'
    else '/'
  }

  function Base64Index(ch: char): Option<nat>
  {
    if 'A' <= ch <= 'Z' then Some((ch as int) - ('A' as int))
    else if 'a' <= ch <= 'z' then Some((ch as int) - ('a' as int) + 26)
    else if '0' <= ch <= '9' then Some((ch as int) - ('0' as int) + 52)
    else if ch == '+' then Some(62)
    else if ch == '/' then Some(63)
    else None
  }

  lemma Base64IndexOfChar(v: nat)
    requires v < 64
    ensures Base64Index(Base64Char(v)) == Some(v)
  {
  }

  /** The four characters of three bytes: each character carries six bits, most significant first. */
  function EncodeGroup(b0: byte, b1: byte, b2: byte): (r: string)
    ensures |r| == 4
  {
    [Base64Char(b0 / 4), Base64Char((b0 % 4) * 16 + b1 / 16),
     Base64Char((b1 % 16) * 4 + b2 / 64), Base64Char(b2 % 64)]
  }

  /** Base64 of the bytes, three bytes to four characters; a final group of one
      or two bytes is zero-filled and padded with '='. */
  function Base64Encode(b: seq<byte>): (r: string)
    ensures |r| == 4 * ((|b| + 2) / 3)
    decreases |b|
  {
    if |b| == 0 then ""
    else if |b| == 1 then EncodeGroup(b[0], 0, 0)[..2] + "=="
    else if |b| == 2 then EncodeGroup(b[0], b[1], 0)[..3] + "="
    else EncodeGroup(b[0], b[1], b[2]) + Base64Encode(b[3..])
  }

  /** The three bytes of four alphabet characters. */
  function DecodeGroup(q: string): Option<seq<byte>>
    requires |q| == 4
  {
    var v0 :- Base64Index(q[0]);
    var v1 :- Base64Index(q[1]);
    var v2 :- Base64Index(q[2]);
    var v3 :- Base64Index(q[3]);
    if v0 < 64 && v1 < 64 && v2 < 64 && v3 < 64 then
      Some([v0 * 4 + v1 / 16, (v1 % 16) * 16 + v2 / 4, (v2 % 4) * 64 + v3])
    else None
  }

  /** The last group of a padded encoding: "xy==" holds one byte, "xyz=" two. */
  function DecodeLastGroup(q: string): Option<seq<byte>>
    requires |q| == 4
  {
    if q[2] == '=' && q[3] == '=' then
      var g :- DecodeGroup([q[0], q[1], 'A', 'A']);
      if g[1] == 0 then Some(g[..1]) else None
    else if q[3] == '=' then
      var g :- DecodeGroup([q[0], q[1], q[2], 'A']);
      if g[2] == 0 then Some(g[..2]) else None
    else DecodeGroup(q)
  }

  /** Base64 decoding of a padded string; None on anything Base64Encode cannot produce. */
  function Base64Decode(s: string): Option<seq<byte>>
    decreases |s|
  {
    if |s| == 0 then Some([])
    else if |s| < 4 then None
    else if |s| == 4 then DecodeLastGroup(s)
    else
      var g :- DecodeGroup(s[..4]);
      var rest :- Base64Decode(s[4..]);
      Some(g + rest)
  }

  lemma GroupArithmetic(b0: byte, b1: byte, b2: byte)
    ensures (b0 / 4) * 4 + ((b0 % 4) * 16 + b1 / 16) / 16 == b0
    ensures (((b0 % 4) * 16 + b1 / 16) % 16) * 16 + ((b1 % 16) * 4 + b2 / 64) / 4 == b1
    ensures (((b1 % 16) * 4 + b2 / 64) % 4) * 64 + b2 % 64 == b2
    ensures (b0 % 4) * 16 + b1 / 16 < 64 && (b1 % 16) * 4 + b2 / 64 < 64
  {
  }

  lemma DecodeEncodeGroup(b0: byte, b1: byte, b2: byte)
    ensures DecodeGroup(EncodeGroup(b0, b1, b2)) == Some([b0, b1, b2])
  {
    GroupArithmetic(b0, b1, b2);
    var v0, v1, v2, v3 := b0 / 4, (b0 % 4) * 16 + b1 / 16, (b1 % 16) * 4 + b2 / 64, b2 % 64;
    Base64IndexOfChar(v0);
    Base64IndexOfChar(v1);
    Base64IndexOfChar(v2);
    Base64IndexOfChar(v3);
  }

  lemma Base64RoundTripOne(b: seq<byte>)
    requires |b| == 1
    ensures Base64Decode(Base64Encode(b)) == Some(b)
  {
    var q := EncodeGroup(b[0], 0, 0);
    var s := Base64Encode(b);
    assert s == [q[0], q[1], '=', '='];
    Base64IndexOfChar(0);
    assert [q[0], q[1], 'A', 'A'] == q;
    DecodeEncodeGroup(b[0], 0, 0);
    var g := [b[0], 0, 0];
    assert DecodeGroup([q[0], q[1], 'A', 'A']) == Some(g);
    assert DecodeLastGroup(s) == Some(g[..1]);
    assert g[..1] == b;
  }

  lemma Base64RoundTripTwo(b: seq<byte>)
    requires |b| == 2
    ensures Base64Decode(Base64Encode(b)) == Some(b)
  {
    var q := EncodeGroup(b[0], b[1], 0);
    var s := Base64Encode(b);
    assert s == [q[0], q[1], q[2], '='];
    Base64IndexOfChar(0);
    assert [q[0], q[1], q[2], 'A'] == q;
    DecodeEncodeGroup(b[0], b[1], 0);
    var g := [b[0], b[1], 0];
    assert DecodeGroup([q[0], q[1], q[2], 'A']) == Some(g);
    assert q[2] != '=';
    assert DecodeLastGroup(s) == Some(g[..2]);
    assert g[..2] == b;
  }

  lemma Base64RoundTripGroup(b: seq<byte>)
    requires |b| >= 3
    requires Base64Decode(Base64Encode(b[3..])) == Some(b[3..])
    ensures Base64Decode(Base64Encode(b)) == Some(b)
  {
    FirstThree(b);
    var q := EncodeGroup(b[0], b[1], b[2]);
    var rest := Base64Encode(b[3..]);
    assert Base64Encode(b) == q + rest;
    DecodeEncodeGroup(b[0], b[1], b[2]);
    DecodeGroupThenRest(q, rest, [b[0], b[1], b[2]], b[3..]);
  }

  lemma FirstThree(b: seq<byte>)
    requires |b| >= 3
    ensures [b[0], b[1], b[2]] + b[3..] == b
  {
  }

  lemma DecodeGroupThenRest(q: string, rest: string, g: seq<byte>, tail: seq<byte>)
    requires |q| == 4 && q[2] != '=' && q[3] != '='
    requires DecodeGroup(q) == Some(g)
    requires Base64Decode(rest) == Some(tail)
    ensures Base64Decode(q + rest) == Some(g + tail)
  {
    var s := q + rest;
    if |rest| == 0 {
      assert s == q;
      assert tail == [];
      assert g + tail == g;
    } else {
      assert |rest| >= 4;
      assert s[..4] == q;
      assert s[4..] == rest;
    }
  }

  /** Base64Decode undoes Base64Encode. */
  lemma {:induction false} Base64RoundTrip(b: seq<byte>)
    ensures Base64Decode(Base64Encode(b)) == Some(b)
    decreases |b|
  {
    if |b| == 1 {
      Base64RoundTripOne(b);
    } else if |b| == 2 {
      Base64RoundTripTwo(b);
    } else if |b| >= 3 {
      Base64RoundTrip(b[3..]);
      Base64RoundTripGroup(b);
    }
  }

  /** Every character of an encoding is from the alphabet, except the final padding. */
  lemma {:induction false} Base64Alphabet(b: seq<byte>)
    ensures forall i :: 0 <= i < |Base64Encode(b)| ==> Base64Encode(b)[i] != '|' && Base64Encode(b)[i] != '\n'
    ensures forall i :: 0 <= i < |Base64Encode(b)| - 4 ==> Base64Encode(b)[i] != '='
    decreases |b|
  {
    if |b| >= 3 {
      Base64Alphabet(b[3..]);
      var s := Base64Encode(b);
      assert forall i :: 4 <= i < |s| ==> s[i] == Base64Encode(b[3..])[i - 4];
    }
  }

  /** Twenty bytes encode to 27 alphabet characters and a single '='; this is why
      main.go may drop the last character and a reader may add it back. */
  lemma DigestBase64(d: Digest)
    ensures |Base64Encode(d)| == 28
    ensures Base64Encode(d)[27] == '=' && Base64Encode(d)[26] != '='
    ensures Base64Encode(d)[..27] + "=" == Base64Encode(d)
    ensures Base64Decode(Base64Encode(d)[..27] + "=") == Some(d)
  {
    var s := Base64Encode(d);
    var t := d[18..];
    assert |t| == 2;
    Base64TailGroup(d, 6);
    assert s[24..] == Base64Encode(t);
    assert s[27] == Base64Encode(t)[3];
    Base64Alphabet(t);
    assert s[26] == Base64Encode(t)[2];
    assert s[..27] + "=" == s;
    Base64RoundTrip(d);
  }

  /** Skipping k groups of three bytes skips 4k characters. */
  lemma {:induction false} Base64TailGroup(b: seq<byte>, k: nat)
    requires 3 * k <= |b|
    ensures Base64Encode(b)[4 * k..] == Base64Encode(b[3 * k..])
  {
    if k > 0 {
      Base64TailGroup(b[3..], k - 1);
      assert b[3..][3 * (k - 1)..] == b[3 * k..];
      var s := Base64Encode(b);
      assert s[4..] == Base64Encode(b[3..]);
      assert s[4..][4 * (k - 1)..] == s[4 * k..];
    }
  }
}
