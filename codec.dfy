/**
 * The IPv4 codec `ip2int` / `int2ip`. The NOC services carry three
 * character-identical copies of it (hosts, networks and asns services); this
 * module is the one model of all three.
 *
 * `ip2int` splits the dotted quad on '.', reads each part with `parseInt(_, 10)`
 * and folds `(ipInt << 8) + octet` from 0, where `<<` works on 32-bit signed
 * integers, then ends with `>>> 0`. `int2ip` prints `x >>> 24`, `x >> 16 & 255`,
 * `x >> 8 & 255` and `x & 255` separated by dots. The JavaScript operators are
 * written out on unbounded integers below, and the lemmas show that the result
 * is the big-endian value of the octets and that the two functions are inverse.
 */
module Codec {
  import opened Text
  import opened Decimal

  const TwoTo8: int := 0x100
  const TwoTo16: int := 0x1_0000
  const TwoTo24: int := 0x100_0000
  const TwoTo31: int := 0x8000_0000
  const TwoTo32: int := 0x1_0000_0000

  // ---------------------------------------------------------------------------
  // JavaScript's 32-bit integer operators on integer-valued numbers

  /** ECMAScript ToUint32: the value modulo 2^32. */
  function ToUint32(x: int): (r: int)
    ensures 0 <= r < TwoTo32
  {
    x % TwoTo32
  }

  /** ECMAScript ToInt32: the value modulo 2^32, read as two's complement. */
  function ToInt32(x: int): (r: int)
    ensures -TwoTo31 <= r < TwoTo31
  {
    var u := ToUint32(x);
    if u >= TwoTo31 then u - TwoTo32 else u
  }

  /** `x << 8`: the operand and the result are 32-bit signed. */
  function ShiftLeft8(x: int): int
  {
    ToInt32(ToInt32(x) * TwoTo8)
  }

  /** `x >>> 24`. */
  function ShiftRightUnsigned24(x: int): (r: nat)
  {
    ToUint32(x) / TwoTo24
  }

  /** `x >> 16`: arithmetic shift, that is floor division of the signed value. */
  function ShiftRight16(x: int): int
  {
    ToInt32(x) / TwoTo16
  }

  /** `x >> 8`. */
  function ShiftRight8(x: int): int
  {
    ToInt32(x) / TwoTo8
  }

  /** `x & 255`: the low byte of the two's complement value. */
  function LowByte(x: int): (r: nat)
    ensures r < TwoTo8
  {
    ToInt32(x) % TwoTo8
  }

  /** ToInt32 changes its argument by a multiple of 2^32. */
  lemma ToInt32Congruent(x: int) returns (k: int)
    ensures ToInt32(x) == x + TwoTo32 * k
  {
    k := -(x / TwoTo32);
    if ToUint32(x) >= TwoTo31 {
      k := k - 1;
    }
  }

  /** A number that differs from a value in [0, 2^32) by a multiple of 2^32 has that value as ToUint32. */
  lemma ToUint32OfCongruent(v: int, k: int)
    requires 0 <= v < TwoTo32
    ensures ToUint32(v + TwoTo32 * k) == v
  {
  }

  // ---------------------------------------------------------------------------
  // Octets

  /** The fold of `ip2int`: `reduce((ipInt, octet) => (ipInt << 8) + octet, 0)`. */
  function Fold(octets: seq<int>): int
  {
    if octets == [] then 0
    else ShiftLeft8(Fold(octets[..|octets| - 1])) + octets[|octets| - 1]
  }

  /** The big-endian base-256 value of a sequence of octets. */
  function BigEndian(octets: seq<int>): int
  {
    if octets == [] then 0
    else BigEndian(octets[..|octets| - 1]) * TwoTo8 + octets[|octets| - 1]
  }

  /**
   * Whatever the octets, the JavaScript fold agrees with the big-endian value
   * modulo 2^32: the int32 wrap-around of `<<` only ever drops multiples of 2^32.
   */
  lemma {:induction false} FoldCongruent(octets: seq<int>) returns (k: int)
    ensures Fold(octets) == BigEndian(octets) + TwoTo32 * k
  {
    if octets == [] {
      k := 0;
    } else {
      var init, last := octets[..|octets| - 1], octets[|octets| - 1];
      var k0 := FoldCongruent(init);
      var f := Fold(init);
      var k1 := ToInt32Congruent(f);
      var k2 := ToInt32Congruent(ToInt32(f) * TwoTo8);
      // Fold(octets) == (f + 2^32 k1) * 2^8 + 2^32 k2 + last, with f == BigEndian(init) + 2^32 k0
      k := k0 * TwoTo8 + k1 * TwoTo8 + k2;
    }
  }

  /** Hence `>>> 0` of the fold is the big-endian value modulo 2^32. */
  lemma FoldModulo(octets: seq<int>)
    ensures ToUint32(Fold(octets)) == ToUint32(BigEndian(octets))
  {
    var k := FoldCongruent(octets);
    var v := ToUint32(BigEndian(octets));
    var j := BigEndian(octets) / TwoTo32;
    assert BigEndian(octets) == v + TwoTo32 * j;
    ToUint32OfCongruent(v, j + k);
  }

  /** Four octets make a value in [0, 2^32). */
  lemma BigEndianFour(o: seq<int>)
    requires |o| == 4 && forall i :: 0 <= i < 4 ==> 0 <= o[i] < TwoTo8
    ensures BigEndian(o) == o[0] * TwoTo24 + o[1] * TwoTo16 + o[2] * TwoTo8 + o[3]
    ensures 0 <= BigEndian(o) < TwoTo32
  {
    var o1, o2, o3 := o[..1], o[..2], o[..3];
    assert o1[..0] == [] && BigEndian(o1) == o[0];
    assert o2[..1] == o1 && BigEndian(o2) == o[0] * TwoTo8 + o[1];
    assert o3[..2] == o2 && BigEndian(o3) == (o[0] * TwoTo8 + o[1]) * TwoTo8 + o[2];
    assert o[..3] == o3;
  }

  // ---------------------------------------------------------------------------
  // Dotted-quad text

  /** One part of a dotted quad: decimal digits worth at most 255. */
  predicate IsOctetText(p: string)
  {
    IsDigits(p) && ValueOf(p) < TwoTo8
  }

  /** Four dot-separated parts, each a decimal octet (leading zeros allowed, as `parseInt` reads them). */
  predicate IsDottedQuad(s: string)
  {
    var parts := Split(s, ".");
    |parts| == 4 && forall i :: 0 <= i < 4 ==> IsOctetText(parts[i])
  }

  /** A dotted quad written without leading zeros, the form `int2ip` prints. */
  predicate IsCanonicalQuad(s: string)
  {
    IsDottedQuad(s) && forall i :: 0 <= i < 4 ==> IsCanonical(Split(s, ".")[i])
  }

  /** `parseInt(part, 10)` of each part of a dotted quad. */
  function Octets(s: string): (o: seq<int>)
    requires IsDottedQuad(s)
    ensures |o| == 4 && forall i :: 0 <= i < 4 ==> 0 <= o[i] < TwoTo8
  {
    var p := Split(s, ".");
    [ValueOf(p[0]), ValueOf(p[1]), ValueOf(p[2]), ValueOf(p[3])]
  }

  /** `ip2int(ip)`: the fold of the octets, made unsigned by `>>> 0`. */
  function Ip2Int(ip: string): (r: int)
    requires IsDottedQuad(ip)
    ensures 0 <= r < TwoTo32
  {
    ToUint32(Fold(Octets(ip)))
  }

  /** `ip2int(ip)` is the big-endian value of the quad's octets: no octet is lost to the 32-bit wrap-around. */
  lemma Ip2IntIsBigEndian(ip: string)
    requires IsDottedQuad(ip)
    ensures var o := Octets(ip); Ip2Int(ip) == o[0] * TwoTo24 + o[1] * TwoTo16 + o[2] * TwoTo8 + o[3]
  {
    FoldOfFour(Octets(ip));
  }

  /** For four octets, `>>> 0` of the fold is their big-endian value. */
  lemma FoldOfFour(o: seq<int>)
    requires |o| == 4 && forall i :: 0 <= i < 4 ==> 0 <= o[i] < TwoTo8
    ensures ToUint32(Fold(o)) == o[0] * TwoTo24 + o[1] * TwoTo16 + o[2] * TwoTo8 + o[3]
  {
    FoldModulo(o);
    BigEndianFour(o);
    var v := BigEndian(o);
    assert ToUint32(v) == v;
  }

  /** The four bytes of a 32-bit value, most significant first. */
  function Bytes(x: int): seq<int>
  {
    [x / TwoTo24, x / TwoTo16 % TwoTo8, x / TwoTo8 % TwoTo8, x % TwoTo8]
  }

  /** The JavaScript shifts and masks of `int2ip` extract the bytes of any value in [0, 2^32). */
  lemma ShiftsExtractBytes(x: int)
    requires 0 <= x < TwoTo32
    ensures ShiftRightUnsigned24(x) == Bytes(x)[0]
    ensures LowByte(ShiftRight16(x)) == Bytes(x)[1]
    ensures LowByte(ShiftRight8(x)) == Bytes(x)[2]
    ensures LowByte(x) == Bytes(x)[3]
  {
    assert ToUint32(x) == x;
    Shift16LowByte(x);
    Shift8LowByte(x);
    UnshiftedLowByte(x);
  }

  /** `x >> 16 & 255` is the second byte, also when `x` reads as negative. */
  lemma Shift16LowByte(x: int)
    requires 0 <= x < TwoTo32
    ensures LowByte(ShiftRight16(x)) == x / TwoTo16 % TwoTo8
  {
    var q := x / TwoTo16;
    if x >= TwoTo31 {
      assert ToInt32(x) == x - TwoTo32;
      assert ShiftRight16(x) == q - TwoTo16;
      assert ToInt32(q - TwoTo16) == q - TwoTo16;
    } else {
      assert ToInt32(x) == x;
      assert ToInt32(q) == q;
    }
  }

  /** `x >> 8 & 255` is the third byte, also when `x` reads as negative. */
  lemma Shift8LowByte(x: int)
    requires 0 <= x < TwoTo32
    ensures LowByte(ShiftRight8(x)) == x / TwoTo8 % TwoTo8
  {
    var q := x / TwoTo8;
    if x >= TwoTo31 {
      assert ToInt32(x) == x - TwoTo32;
      assert ShiftRight8(x) == q - TwoTo24;
      assert ToInt32(q - TwoTo24) == q - TwoTo24;
    } else {
      assert ToInt32(x) == x;
      assert ToInt32(q) == q;
    }
  }

  /** `x & 255` is the low byte, also when `x` reads as negative. */
  lemma UnshiftedLowByte(x: int)
    requires 0 <= x < TwoTo32
    ensures LowByte(x) == x % TwoTo8
  {
    if x >= TwoTo31 {
      assert ToInt32(x) == x - TwoTo32;
    } else {
      assert ToInt32(x) == x;
    }
  }

  /** Splitting a value into its bytes and recombining them gives the value. */
  lemma BytesRecombine(x: int)
    requires 0 <= x < TwoTo32
    ensures var b := Bytes(x); x == b[0] * TwoTo24 + b[1] * TwoTo16 + b[2] * TwoTo8 + b[3]
    ensures forall i :: 0 <= i < 4 ==> 0 <= Bytes(x)[i] < TwoTo8
  {
    var q1, r0 := x / TwoTo8, x % TwoTo8;
    var q2, r1 := q1 / TwoTo8, q1 % TwoTo8;
    var q3, r2 := q2 / TwoTo8, q2 % TwoTo8;
    assert x / TwoTo16 == q2;
    assert x / TwoTo24 == q3;
  }

  /** The bytes of the big-endian value of four octets are those octets. */
  lemma BytesOfOctets(o: seq<int>)
    requires |o| == 4 && forall i :: 0 <= i < 4 ==> 0 <= o[i] < TwoTo8
    ensures Bytes(o[0] * TwoTo24 + o[1] * TwoTo16 + o[2] * TwoTo8 + o[3]) == o
  {
    var x := o[0] * TwoTo24 + o[1] * TwoTo16 + o[2] * TwoTo8 + o[3];
    assert x / TwoTo8 == o[0] * TwoTo16 + o[1] * TwoTo8 + o[2];
    assert x / TwoTo16 == o[0] * TwoTo8 + o[1];
    assert x / TwoTo24 == o[0];
  }

  /** `int2ip(ipInt)` for a value in [0, 2^32). */
  function Int2Ip(x: int): (s: string)
    requires 0 <= x < TwoTo32
    ensures IsCanonicalQuad(s)
    ensures Octets(s) == Bytes(x)
  {
    var s := Show(ShiftRightUnsigned24(x)) + "." + Show(LowByte(ShiftRight16(x))) + "."
      + Show(LowByte(ShiftRight8(x))) + "." + Show(LowByte(x));
    ShiftsExtractBytes(x);
    BytesRecombine(x);
    PrintedQuad(Bytes(x));
    var p := ShowAll(Bytes(x));
    assert p[1..][1..][1..] == [p[3]];
    assert Join(p[1..][1..], ".") == p[2] + "." + p[3];
    assert Join(p[1..], ".") == p[1] + "." + (p[2] + "." + p[3]);
    assert s == Join(p, ".");
    s
  }

  /** The printed form of each octet. */
  function ShowAll(o: seq<int>): (p: seq<string>)
    requires |o| == 4 && forall i :: 0 <= i < 4 ==> 0 <= o[i] < TwoTo8
    ensures |p| == 4
  {
    [Show(o[0]), Show(o[1]), Show(o[2]), Show(o[3])]
  }

  /** Four printed octets joined with dots form a canonical quad whose octets are the given ones. */
  lemma PrintedQuad(o: seq<int>)
    requires |o| == 4 && forall i :: 0 <= i < 4 ==> 0 <= o[i] < TwoTo8
    ensures IsCanonicalQuad(Join(ShowAll(o), "."))
    ensures Octets(Join(ShowAll(o), ".")) == o
  {
    var p := ShowAll(o);
    forall k | 0 <= k < 4 ensures '.' !in p[k] && ValueOf(p[k]) == o[k] {
      ValueOfShow(o[k]);
      assert forall i :: 0 <= i < |p[k]| ==> IsDigit(p[k][i]);
    }
    SplitJoin(p, '.');
  }

  /** Round trip: `ip2int(int2ip(x)) == x` for every x in [0, 2^32). */
  lemma Ip2IntOfInt2Ip(x: int)
    requires 0 <= x < TwoTo32
    ensures Ip2Int(Int2Ip(x)) == x
  {
    Ip2IntIsBigEndian(Int2Ip(x));
    BytesRecombine(x);
  }

  /** Round trip: `int2ip(ip2int(s)) == s` for every quad written without leading zeros. */
  lemma Int2IpOfIp2Int(s: string)
    requires IsCanonicalQuad(s)
    ensures Int2Ip(Ip2Int(s)) == s
  {
    var o := Octets(s);
    var parts := Split(s, ".");
    Ip2IntIsBigEndian(s);
    BytesOfOctets(o);
    var t := Int2Ip(Ip2Int(s));
    assert Octets(t) == o;
    var tparts := Split(t, ".");
    forall i | 0 <= i < 4 ensures tparts[i] == parts[i] {
      CanonicalUnique(tparts[i], parts[i]);
    }
    assert tparts == parts;
    JoinSplit(s, ".");
    JoinSplit(t, ".");
  }

  /** Printing the value of any dotted quad gives the same four octets, leading zeros dropped. */
  lemma Int2IpKeepsOctets(s: string)
    requires IsDottedQuad(s)
    ensures Octets(Int2Ip(Ip2Int(s))) == Octets(s)
  {
    Ip2IntIsBigEndian(s);
    BytesOfOctets(Octets(s));
  }

  /** Two dotted quads written without leading zeros denote the same address only if they are the same text. */
  lemma Ip2IntInjective(s: string, t: string)
    requires IsCanonicalQuad(s) && IsCanonicalQuad(t)
    requires Ip2Int(s) == Ip2Int(t)
    ensures s == t
  {
    Int2IpOfIp2Int(s);
    Int2IpOfIp2Int(t);
  }
}
