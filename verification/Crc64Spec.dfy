/**
  The CRC-64 (Jones) checksum as arithmetic over GF(2).

  Everything is built on `ZeroBit`, one clock of the reflected shift register
  with a zero input bit.  Tables, slices and the combine operators of the other
  modules are all powers of it.
  */
module Crc64Spec {

  type Byte = bv8

  /** The generator in the reflected bit order. */
  const REVERSED_POLY: bv64 := 0x95ac_9329_ac4b_c9b5

  /** Addition over GF(2); a function so that proofs can keep it folded. */
  function Xor(a: bv64, b: bv64): bv64 { a ^ b }

  function Half(v: bv64): bv64 { v >> 1 }

  function Double(v: bv64): bv64 { v << 1 }

  predicate Odd(v: bv64) { v & 1 == 1 }

  /** One clock of the register with a zero input bit. */
  function ZeroBit(v: bv64): bv64 {
    if Odd(v) then Xor(Half(v), REVERSED_POLY) else Half(v)
  }

  /** `n` clocks with zero input. */
  function ZeroBits(n: nat, v: bv64): bv64 {
    if n == 0 then v else ZeroBits(n - 1, ZeroBit(v))
  }

  function Wide(b: Byte): bv64 { b as bv64 }

  function ShiftUp(v: bv64): bv64 { v << 8 }

  function ShiftDown(v: bv64): bv64 { v >> 8 }

  /** The register after shifting in one message byte. */
  function CrcByte(crc: bv64, b: Byte): bv64 {
    ZeroBits(8, Xor(crc, Wide(b)))
  }

  /** The register after shifting in a whole message. */
  function Crc(crc: bv64, s: seq<Byte>): bv64
    decreases |s|
  {
    if s == [] then crc else Crc(CrcByte(crc, s[0]), s[1..])
  }

  /** The word a little-endian machine loads from up to eight bytes. */
  function LittleEndian(s: seq<Byte>): bv64
    requires |s| <= 8
  {
    if s == [] then 0 else Xor(Wide(s[0]), ShiftUp(LittleEndian(s[1..])))
  }

  // ---- exclusive or ----

  lemma XorAssociates(a: bv64, b: bv64, c: bv64)
    ensures Xor(Xor(a, b), c) == Xor(a, Xor(b, c))
  {
    calc {
      Xor(Xor(a, b), c);
      Xor(a ^ b, c);
      (a ^ b) ^ c;
      a ^ (b ^ c);
      Xor(a, b ^ c);
      Xor(a, Xor(b, c));
    }
  }

  lemma XorCommutes(a: bv64, b: bv64)
    ensures Xor(a, b) == Xor(b, a)
  {
  }

  lemma XorZero(a: bv64)
    ensures Xor(a, 0) == a && Xor(0, a) == a
  {
  }

  lemma XorCancels(a: bv64, b: bv64)
    ensures Xor(Xor(a, b), b) == a
  {
    calc {
      Xor(Xor(a, b), b);
      Xor(a ^ b, b);
      (a ^ b) ^ b;
      a;
    }
  }

  /** (a+b) + (c+d) = (a+c) + (b+d) */
  lemma XorExchange(a: bv64, b: bv64, c: bv64, d: bv64)
    ensures Xor(Xor(a, b), Xor(c, d)) == Xor(Xor(a, c), Xor(b, d))
  {
    hide Xor;
    XorAssociates(a, b, Xor(c, d));
    XorAssociates(b, c, d);
    XorCommutes(b, c);
    XorAssociates(c, b, d);
    XorAssociates(a, c, Xor(b, d));
  }

  // ---- linearity ----

  lemma HalfLinear(a: bv64, b: bv64)
    ensures Half(Xor(a, b)) == Xor(Half(a), Half(b))
    ensures Odd(Xor(a, b)) <==> Odd(a) != Odd(b)
  {
    calc {
      Half(Xor(a, b));
      (a ^ b) >> 1;
      (a >> 1) ^ (b >> 1);
      Xor(Half(a), Half(b));
    }
  }

  lemma ZeroBitLinear(a: bv64, b: bv64)
    ensures ZeroBit(Xor(a, b)) == Xor(ZeroBit(a), ZeroBit(b))
  {
    hide Xor, Half, Odd;
    HalfLinear(a, b);
    var pa := if Odd(a) then REVERSED_POLY else 0;
    var pb := if Odd(b) then REVERSED_POLY else 0;
    XorZero(Half(a));
    XorZero(Half(b));
    XorZero(Half(Xor(a, b)));
    XorExchange(Half(a), pa, Half(b), pb);
    XorZero(REVERSED_POLY);
    XorZero(0);
    XorCancels(0, REVERSED_POLY);
  }

  lemma {:induction false} ZeroBitsLinear(n: nat, a: bv64, b: bv64)
    ensures ZeroBits(n, Xor(a, b)) == Xor(ZeroBits(n, a), ZeroBits(n, b))
  {
    hide ZeroBit, Xor;
    if n > 0 {
      ZeroBitLinear(a, b);
      ZeroBitsLinear(n - 1, ZeroBit(a), ZeroBit(b));
    }
  }

  lemma {:induction false} ZeroBitsZero(n: nat)
    ensures ZeroBits(n, 0) == 0
  {
    if n > 0 { ZeroBitsZero(n - 1); }
  }

  lemma {:induction false} ZeroBitsCompose(m: nat, n: nat, v: bv64)
    ensures ZeroBits(m + n, v) == ZeroBits(n, ZeroBits(m, v))
  {
    hide ZeroBit;
    if m > 0 { ZeroBitsCompose(m - 1, n, ZeroBit(v)); }
  }

  lemma ZeroBitsNone(v: bv64)
    ensures ZeroBits(0, v) == v
  {
  }

  // ---- shifting ----

  predicate TopByteClear(v: bv64) { v & 0xff00_0000_0000_0000 == 0 }

  /** Two clocks of a register whose two low bits are clear only shift it. */
  lemma TwoClocksShift(v: bv64)
    requires v & 3 == 0
    ensures ZeroBits(2, v) == v >> 2
  {
    hide ZeroBits;
    TwoClocks(v);
  }

  lemma TwoClocks(v: bv64)
    ensures ZeroBits(2, v) == ZeroBit(ZeroBit(v))
  {
    hide ZeroBit;
    assert ZeroBits(1, ZeroBit(v)) == ZeroBit(ZeroBit(v));
  }

  lemma FourClocksShift(v: bv64)
    requires v & 15 == 0
    ensures ZeroBits(4, v) == v >> 4
  {
    hide ZeroBits, ZeroBit;
    TwoClocksShift(v);
    TwoClocksShift(v >> 2);
    ZeroBitsCompose(2, 2, v);
  }

  lemma EightClocksShift(v: bv64)
    requires v & 0xff == 0
    ensures ZeroBits(8, v) == ShiftDown(v)
  {
    hide ZeroBits, ZeroBit;
    FourClocksShift(v);
    FourClocksShift(v >> 4);
    ZeroBitsCompose(4, 4, v);
  }

  /** A word below 2^56 moved up one byte comes back after eight clocks. */
  lemma ShiftUpAndClock(v: bv64)
    requires TopByteClear(v)
    ensures ZeroBits(8, ShiftUp(v)) == v
  {
    hide ZeroBits;
    EightClocksShift(ShiftUp(v));
  }

  // ---- the message ----

  lemma {:induction false} CrcAppend(crc: bv64, s: seq<Byte>, t: seq<Byte>)
    ensures Crc(crc, s + t) == Crc(Crc(crc, s), t)
    decreases |s|
  {
    hide CrcByte;
    if s == [] {
      assert s + t == t;
    } else {
      assert (s + t)[1..] == s[1..] + t;
      CrcAppend(CrcByte(crc, s[0]), s[1..], t);
    }
  }

  /** The start value and the message act independently on the register. */
  lemma {:induction false} CrcSplits(crc: bv64, s: seq<Byte>)
    ensures Crc(crc, s) == Xor(ZeroBits(8 * |s|, crc), Crc(0, s))
    decreases |s|
  {
    hide ZeroBits, Xor, Wide;
    if s == [] {
      ZeroBitsNone(crc);
      XorZero(crc);
    } else {
      var b, m := Wide(s[0]), 8 * (|s| - 1);
      var zc, zb := ZeroBits(8, crc), ZeroBits(8, b);
      ZeroBitsLinear(8, crc, b);
      XorZero(b);
      CrcSplits(Xor(zc, zb), s[1..]);
      CrcSplits(zb, s[1..]);
      ZeroBitsLinear(m, zc, zb);
      XorAssociates(ZeroBits(m, zc), ZeroBits(m, zb), Crc(0, s[1..]));
      ZeroBitsCompose(8, m, crc);
    }
  }

  /** The bits a word of `k` bytes leaves clear. */
  function HighMask(k: nat): bv64 {
    match k
    case 0 => 0xffff_ffff_ffff_ffff
    case 1 => 0xffff_ffff_ffff_ff00
    case 2 => 0xffff_ffff_ffff_0000
    case 3 => 0xffff_ffff_ff00_0000
    case 4 => 0xffff_ffff_0000_0000
    case 5 => 0xffff_ff00_0000_0000
    case 6 => 0xffff_0000_0000_0000
    case 7 => 0xff00_0000_0000_0000
    case _ => 0
  }

  lemma PrependByteFits(b: Byte, v: bv64, mask: bv64)
    requires v & mask == 0
    ensures Xor(Wide(b), ShiftUp(v)) & (mask << 8) == 0
  {
  }

  lemma {:induction false} LittleEndianFits(s: seq<Byte>)
    requires |s| <= 7
    ensures LittleEndian(s) & HighMask(|s|) == 0
  {
    hide Xor, Wide, ShiftUp;
    if s != [] {
      LittleEndianFits(s[1..]);
      PrependByteFits(s[0], LittleEndian(s[1..]), HighMask(|s| - 1));
    }
  }

  lemma LittleEndianBelowTop(s: seq<Byte>)
    requires |s| <= 7
    ensures TopByteClear(LittleEndian(s))
  {
    hide LittleEndian;
    LittleEndianFits(s);
  }

  /** Up to eight message bytes may be loaded as one word and clocked through together. */
  lemma {:induction false} CrcOfWord(crc: bv64, s: seq<Byte>)
    requires |s| <= 8
    ensures Crc(crc, s) == ZeroBits(8 * |s|, Xor(crc, LittleEndian(s)))
    decreases |s|
  {
    hide ZeroBits, Xor, Wide, ShiftUp, TopByteClear;
    if s == [] {
      ZeroBitsNone(crc);
      XorZero(crc);
    } else {
      var b, rest := Wide(s[0]), LittleEndian(s[1..]);
      LittleEndianBelowTop(s[1..]);
      ShiftUpAndClock(rest);
      ZeroBitsLinear(8, Xor(crc, b), ShiftUp(rest));
      XorAssociates(crc, b, ShiftUp(rest));
      CrcOfWord(CrcByte(crc, s[0]), s[1..]);
      ZeroBitsCompose(8, 8 * (|s| - 1), Xor(crc, LittleEndian(s)));
    }
  }
}
