/** compactIpStr: a dotted IPv4 address packed into a uint32 and printed in
    hexadecimal, anything else kept as it is. The uint32 operations are
    written out on integers: << keeps the low 32 bits, + wraps around,
    and | is bitwise or. */
module Ip {
  import opened Wrappers
  import opened GoStrings
  import opened Encoding

  const Two32: nat := 0x1_0000_0000

  type uint32 = x: int | 0 <= x < 0x1_0000_0000

  function Pow2(k: nat): (p: nat)
    ensures p >= 1
  {
    if k == 0 then 1 else 2 * Pow2(k - 1)
  }

  /** x << k on uint32. */
  function ShiftLeft(x: uint32, k: nat): uint32
  {
    (x * Pow2(k)) % Two32
  }

  /** x + y on uint32. */
  function AddWrap(x: uint32, y: uint32): uint32
  {
    (x + y) % Two32
  }

  /** Bitwise or, one binary digit at a time from the least significant. */
  function BitOr(x: nat, y: nat): nat
    decreases x + y
  {
    if x == 0 then y
    else if y == 0 then x
    else 2 * BitOr(x / 2, y / 2) + (if x % 2 == 1 || y % 2 == 1 then 1 else 0)
  }

  function Or32(x: uint32, y: uint32): uint32
  {
    Pow2Values();
    BitOrBelow(x, y, 32);
    BitOr(x, y)
  }

  const MinInt64: int := -0x8000_0000_0000_0000
  const MaxInt64: int := 0x7fff_ffff_ffff_ffff

  /** The num of `num, _ := strconv.Atoi(p)`: 0 when p is not a number, and
      a number outside the 64 bits of int clamped to the nearest end of
      that range, as Atoi does when it reports a range error. */
  function AtoiValue(p: string): int
  {
    match Atoi(p)
    case None => 0
    case Some(v) => if v > MaxInt64 then MaxInt64 else if v < MinInt64 then MinInt64 else v
  }

  /** uint32(num): the conversion keeps the low 32 bits of the two's
      complement value. A part that is not a number is 0, one above the
      64-bit range all ones, one below it 0. */
  function Octet(p: string): (r: uint32)
    ensures Atoi(p).None? ==> r == 0
    ensures Atoi(p).Some? && Atoi(p).value > MaxInt64 ==> r == 0xffff_ffff
    ensures Atoi(p).Some? && Atoi(p).value < MinInt64 ==> r == 0
    ensures Atoi(p).Some? && MinInt64 <= Atoi(p).value <= MaxInt64 ==> r == Atoi(p).value % Two32
  {
    AtoiValue(p) % Two32
  }

  /** (nums[0] << 24) | (nums[1] << 16) + (nums[2] << 8) | nums[3] with Go's
      precedence: + and | bind equally and apply left to right. */
  function Pack(a: uint32, b: uint32, c: uint32, d: uint32): uint32
  {
    Or32(AddWrap(Or32(ShiftLeft(a, 24), ShiftLeft(b, 16)), ShiftLeft(c, 8)), d)
  }

  /** The specification of compactIpStr. */
  function CompactIp(s: string): string
  {
    var parts := Split(s, '.');
    if |parts| != 4 then s
    else NatToHex(Pack(Octet(parts[0]), Octet(parts[1]), Octet(parts[2]), Octet(parts[3])))
  }

  method CompactIpStr(s: string) returns (r: string)
    ensures r == CompactIp(s)
  {
    var nums := new uint32[4];
    var parts := Split(s, '.');
    if |parts| != 4 {
      return s;
    }
    for n := 0 to 4
      invariant forall k :: 0 <= k < n ==> nums[k] == Octet(parts[k])
    {
      var num := AtoiValue(parts[n]);
      nums[n] := num % Two32;
    }
    var n := Or32(AddWrap(Or32(ShiftLeft(nums[0], 24), ShiftLeft(nums[1], 16)), ShiftLeft(nums[2], 8)), nums[3]);
    r := NatToHex(n);
  }

  // ---------------------------------------------------------------------
  // Properties

  /** The input comes back unchanged exactly when it is not four dot-separated parts. */
  lemma CompactIpUnchanged(s: string)
    ensures CompactIp(s) == s <==> |Split(s, '.')| != 4
  {
    if |Split(s, '.')| == 4 {
      if '.' !in s {
        SplitNoSep(s, '.');
      }
      var i :| 0 <= i < |s| && s[i] == '.';
      assert i >= |CompactIp(s)| || CompactIp(s)[i] != '.';
    }
  }

  lemma {:induction false} BitOrBelow(x: nat, y: nat, k: nat)
    requires x < Pow2(k) && y < Pow2(k)
    ensures BitOr(x, y) < Pow2(k)
  {
    if k > 0 && x != 0 && y != 0 {
      BitOrBelow(x / 2, y / 2, k - 1);
    }
  }

  /** Or-ing a value below 2^k into a multiple of 2^k adds it. */
  lemma {:induction false} BitOrDisjoint(x: nat, y: nat, k: nat)
    requires y < Pow2(k)
    ensures BitOr(x * Pow2(k), y) == x * Pow2(k) + y
  {
    if k > 0 && x * Pow2(k) != 0 && y != 0 {
      var h := x * Pow2(k - 1);
      assert x * Pow2(k) == 2 * h;
      assert (2 * h) / 2 == h && (2 * h) % 2 == 0;
      BitOrDisjoint(x, y / 2, k - 1);
    }
  }

  lemma Pow2Values()
    ensures Pow2(8) == 0x100 && Pow2(16) == 0x1_0000 && Pow2(24) == 0x100_0000 && Pow2(32) == Two32
  {
    assert Pow2(4) == 16;
    assert Pow2(8) == 16 * Pow2(4);
  }

  lemma ShiftOctets(a: uint32, b: uint32, c: uint32)
    requires a < 256 && b < 256 && c < 256
    ensures ShiftLeft(a, 24) == a * 0x100_0000
    ensures ShiftLeft(b, 16) == b * 0x1_0000
    ensures ShiftLeft(c, 8) == c * 0x100
  {
    Pow2Values();
  }

  lemma OrHigh(a: uint32, b: uint32)
    requires a < 256 && b < 256
    ensures Or32(a * 0x100_0000, b * 0x1_0000) == a * 0x100_0000 + b * 0x1_0000
  {
    Pow2Values();
    BitOrDisjoint(a, b * 0x1_0000, 24);
  }

  lemma OrLow(x: nat, d: uint32)
    requires x < 0x100_0000 && d < 256
    ensures x * 0x100 < Two32 && Or32(x * 0x100, d) == x * 0x100 + d
  {
    Pow2Values();
    BitOrDisjoint(x, d, 8);
  }

  /** For parts in 0..255 the shifted parts do not overlap, so | and + agree. */
  lemma PackOctets(a: uint32, b: uint32, c: uint32, d: uint32)
    requires a < 256 && b < 256 && c < 256 && d < 256
    ensures Pack(a, b, c, d) == a * 0x100_0000 + b * 0x1_0000 + c * 0x100 + d
  {
    ShiftOctets(a, b, c);
    OrHigh(a, b);
    var hi := Or32(ShiftLeft(a, 24), ShiftLeft(b, 16));
    var x := a * 0x1_0000 + b * 0x100 + c;
    AddMiddle(a, b, c);
    var mid := AddWrap(hi, ShiftLeft(c, 8));
    assert mid == x * 0x100;
    OrLow(x, d);
    assert Pack(a, b, c, d) == Or32(mid, d);
  }

  lemma AddMiddle(a: uint32, b: uint32, c: uint32)
    requires a < 256 && b < 256 && c < 256
    ensures AddWrap(a * 0x100_0000 + b * 0x1_0000, c * 0x100) == (a * 0x1_0000 + b * 0x100 + c) * 0x100
  {
    var s := a * 0x100_0000 + b * 0x1_0000 + c * 0x100;
    assert s < Two32;
  }

  lemma OctetOf(p: string, a: nat)
    requires Atoi(p) == Some(a) && a < 256
    ensures Octet(p) == a
  {
    assert AtoiValue(p) == a;
  }

  /** A dotted quad of octets becomes the hexadecimal of its 32-bit value. */
  lemma CompactIpOfQuad(s: string, a: nat, b: nat, c: nat, d: nat)
    requires |Split(s, '.')| == 4
    requires Atoi(Split(s, '.')[0]) == Some(a) && Atoi(Split(s, '.')[1]) == Some(b)
    requires Atoi(Split(s, '.')[2]) == Some(c) && Atoi(Split(s, '.')[3]) == Some(d)
    requires a < 256 && b < 256 && c < 256 && d < 256
    ensures CompactIp(s) == NatToHex(a * 0x100_0000 + b * 0x1_0000 + c * 0x100 + d)
  {
    var parts := Split(s, '.');
    OctetOf(parts[0], a);
    OctetOf(parts[1], b);
    OctetOf(parts[2], c);
    OctetOf(parts[3], d);
    PackOctets(a, b, c, d);
    var n := Pack(Octet(parts[0]), Octet(parts[1]), Octet(parts[2]), Octet(parts[3]));
    assert n == a * 0x100_0000 + b * 0x1_0000 + c * 0x100 + d;
    assert CompactIp(s) == NatToHex(n);
  }
}
