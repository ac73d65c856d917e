/**
  The bit-by-bit reference of crc64.c, which works on the unreflected register,
  and its agreement with the reflected register of `Crc64Spec`.
  */
module Crc64Bitwise {
  import opened Crc64Spec

  const POLY: bv64 := 0xad93_d235_94c9_35a9

  /** Reverses the 64 bits of a word by swapping bits, pairs, nibbles, bytes and so on. */
  function Reflect(v: bv64): bv64 {
    var a := ((v >> 1) & 0x5555_5555_5555_5555) | ((v & 0x5555_5555_5555_5555) << 1);
    var b := ((a >> 2) & 0x3333_3333_3333_3333) | ((a & 0x3333_3333_3333_3333) << 2);
    var c := ((b >> 4) & 0x0f0f_0f0f_0f0f_0f0f) | ((b & 0x0f0f_0f0f_0f0f_0f0f) << 4);
    var d := ((c >> 8) & 0x00ff_00ff_00ff_00ff) | ((c & 0x00ff_00ff_00ff_00ff) << 8);
    var e := ((d >> 16) & 0x0000_ffff_0000_ffff) | ((d & 0x0000_ffff_0000_ffff) << 16);
    ((e >> 32) & 0x0000_0000_ffff_ffff) | ((e & 0x0000_0000_ffff_ffff) << 32)
  }

  /** The most significant bit of a word. */
  predicate Top(v: bv64) { v & 0x8000_0000_0000_0000 != 0 }

  lemma ReflectDouble(v: bv64)
    ensures Reflect(Double(v)) == Half(Reflect(v))
  {
    calc {
      Reflect(Double(v));
      Reflect(v << 1);
      Reflect(v) >> 1;
      Half(Reflect(v));
    }
  }

  lemma ReflectTop(v: bv64)
    ensures Odd(Reflect(v)) <==> Top(v)
  {
  }

  lemma ReflectXor(a: bv64, b: bv64)
    ensures Reflect(Xor(a, b)) == Xor(Reflect(a), Reflect(b))
  {
    calc {
      Reflect(Xor(a, b));
      Reflect(a ^ b);
      Reflect(a) ^ Reflect(b);
      Xor(Reflect(a), Reflect(b));
    }
  }

  lemma ReflectConstants()
    ensures Reflect(POLY) == REVERSED_POLY
    ensures Reflect(0) == 0
  {
  }

  lemma ReflectInvolution(v: bv64)
    ensures Reflect(Reflect(v)) == v
  {
  }

  /** One input bit through the unreflected register. */
  function MsbStep(crc: bv64, input: bool): bv64 {
    if Top(crc) != input then Xor(Double(crc), POLY) else Double(crc)
  }

  /** One input bit through the reflected register. */
  function LsbStep(crc: bv64, input: bool): bv64 {
    ZeroBit(Xor(crc, if input then 1 else 0))
  }

  lemma OneIsOddHalfZero(r: bv64)
    ensures Half(Xor(r, 1)) == Half(r)
    ensures Odd(Xor(r, 1)) <==> !Odd(r)
  {
  }

  /** The two registers stay mirror images of each other. */
  lemma StepsMirror(crc: bv64, input: bool)
    ensures Reflect(MsbStep(crc, input)) == LsbStep(Reflect(crc), input)
  {
    hide Reflect, Double, Half, Xor, Odd, Top;
    ReflectDouble(crc);
    ReflectTop(crc);
    ReflectXor(Double(crc), POLY);
    ReflectConstants();
    OneIsOddHalfZero(Reflect(crc));
    XorZero(Reflect(crc));
  }

  /** Where the inner loop stands: mask `i` selects bit `k` of `c`, and `rest` is what is left of it. */
  predicate Cursor(c: Byte, i: Byte, rest: Byte, k: nat) {
    match k
    case 0 => i == 0x01 && rest == c
    case 1 => i == 0x02 && rest == c >> 1
    case 2 => i == 0x04 && rest == c >> 2
    case 3 => i == 0x08 && rest == c >> 3
    case 4 => i == 0x10 && rest == c >> 4
    case 5 => i == 0x20 && rest == c >> 5
    case 6 => i == 0x40 && rest == c >> 6
    case 7 => i == 0x80 && rest == c >> 7
    case 8 => i == 0 && rest == 0
    case _ => false
  }

  lemma CursorAdvances(c: Byte, i: Byte, rest: Byte, k: nat)
    requires Cursor(c, i, rest, k) && i != 0
    ensures k < 8 && Cursor(c, i << 1, rest >> 1, k + 1)
    ensures c & i != 0 <==> rest & 1 == 1
  {
  }

  /** The unread bits of the byte can wait outside the register. */
  lemma PendingBits(r: bv64, rest: Byte)
    ensures Xor(LsbStep(r, rest & 1 == 1), Wide(rest >> 1)) == ZeroBit(Xor(r, Wide(rest)))
  {
    var input := if rest & 1 == 1 then 1 else 0;
    var tail := Wide(rest >> 1) << 1;
    assert Wide(rest) == Xor(input, tail) && !Odd(tail) && Half(tail) == Wide(rest >> 1);
    hide Xor, Odd, Half, Wide;
    XorAssociates(r, input, tail);
    ZeroBitLinear(Xor(r, input), tail);
  }

  lemma ZeroBitsNext(k: nat, v: bv64)
    ensures ZeroBits(k + 1, v) == ZeroBit(ZeroBits(k, v))
  {
    hide ZeroBit;
    ZeroBitsCompose(k, 1, v);
    assert ZeroBits(1, ZeroBits(k, v)) == ZeroBit(ZeroBits(k, v));
  }

  /** The inner loop of `_crc64`: one byte, least significant bit first. */
  method ShiftIn(start: bv64, c: Byte) returns (crc: bv64)
    ensures Reflect(crc) == CrcByte(Reflect(start), c)
  {
    hide Reflect, Cursor, Xor, ZeroBits, ZeroBit, LsbStep, Wide;
    crc := start;
    var i: Byte := 0x01;
    ghost var k, rest := 0, c;
    ghost var whole := Xor(Reflect(start), Wide(c));
    ZeroBitsNone(whole);
    CursorStarts(c);
    while i != 0
      invariant Cursor(c, i, rest, k)
      invariant Xor(Reflect(crc), Wide(rest)) == ZeroBits(k, whole)
      decreases 8 - k
    {
      CursorAdvances(c, i, rest, k);
      StepsMirror(crc, c & i != 0);
      PendingBits(Reflect(crc), rest);
      ZeroBitsNext(k, whole);
      var bit := crc & 0x8000_0000_0000_0000 != 0;
      if c & i != 0 {
        bit := !bit;
      }
      crc := Double(crc);
      if bit {
        crc := Xor(crc, POLY);
      }
      i, k, rest := i << 1, k + 1, rest >> 1;
    }
    CursorEnds(c, i, rest, k);
    XorZero(Reflect(crc));
  }

  lemma CursorStarts(c: Byte)
    ensures Cursor(c, 0x01, c, 0)
  {
  }

  lemma CursorEnds(c: Byte, i: Byte, rest: Byte, k: nat)
    requires Cursor(c, i, rest, k) && i == 0
    ensures k == 8 && Wide(rest) == 0
  {
  }

  /** `_crc64`: from an unreflected start value to a reflected result, one bit at a time. */
  method Crc64(start: bv64, data: seq<Byte>) returns (r: bv64)
    ensures r == Crc(Reflect(start), data)
  {
    hide Reflect, CrcByte;
    var crc := start;
    var offset := 0;
    assert data[0..] == data;
    while offset < |data|
      invariant 0 <= offset <= |data|
      invariant Crc(Reflect(crc), data[offset..]) == Crc(Reflect(start), data)
    {
      assert data[offset..][1..] == data[offset + 1..];
      crc := ShiftIn(crc, data[offset]);
      offset := offset + 1;
    }
    r := Reflect(crc);
  }
}
