/**
  The big-endian variant of crcspeed.c and the entry points of crc64.c that
  choose between the two byte orders.
  */
module Crc64Big {
  import opened Crc64Spec
  import opened Crc64Speed
  import Bitwise = Crc64Bitwise
  import PowerOfTwo

  /** Reverses the bytes of a word. */
  function Rev8(a: bv64): bv64 {
    var b := ((a >> 8) & 0x00ff_00ff_00ff_00ff) | ((a & 0x00ff_00ff_00ff_00ff) << 8);
    var c := ((b >> 16) & 0x0000_ffff_0000_ffff) | ((b & 0x0000_ffff_0000_ffff) << 16);
    (c >> 32) | (c << 32)
  }

  lemma Rev8Involution(v: bv64)
    ensures Rev8(Rev8(v)) == v
  {
  }

  lemma Rev8Xor(a: bv64, b: bv64)
    ensures Rev8(Xor(a, b)) == Xor(Rev8(a), Rev8(b))
  {
    calc {
      Rev8(Xor(a, b));
      Rev8(a ^ b);
      Rev8(a) ^ Rev8(b);
      Xor(Rev8(a), Rev8(b));
    }
  }

  lemma Rev8Shift(v: bv64)
    ensures Rev8(ShiftDown(v)) == ShiftUp(Rev8(v))
  {
    calc {
      Rev8(ShiftDown(v));
      Rev8(v >> 8);
      Rev8(v) << 8;
      ShiftUp(Rev8(v));
    }
  }

  lemma Rev8Bytes(v: bv64)
    ensures LowByte(Rev8(v)) == LowByte(v >> 56)
    ensures LowByte(Rev8(v) >> 8) == LowByte(v >> 48)
    ensures LowByte(Rev8(v) >> 16) == LowByte(v >> 40)
    ensures LowByte(Rev8(v) >> 24) == LowByte(v >> 32)
    ensures LowByte(Rev8(v) >> 32) == LowByte(v >> 24)
    ensures LowByte(Rev8(v) >> 40) == LowByte(v >> 16)
    ensures LowByte(Rev8(v) >> 48) == LowByte(v >> 8)
    ensures LowByte(Rev8(v) >> 56) == LowByte(v)
  {
  }

  /** The table index of the byte loops. */
  function TopIndex(crc: bv64, b: Byte): Byte { LowByte(crc >> 56) ^ b }

  lemma TopIndexIsLow(c: bv64, b: Byte)
    ensures TopIndex(Rev8(c), b) == LowByte(Xor(c, Wide(b)))
  {
    calc {
      TopIndex(Rev8(c), b);
      ((c & 0xff) as Byte) ^ b;
      ((c ^ (b as bv64)) & 0xff) as Byte;
      LowByte(Xor(c, Wide(b)));
    }
  }

  /** Eight terms added from either end. */
  lemma ReverseSum(a: bv64, b: bv64, c: bv64, d: bv64, e: bv64, f: bv64, g: bv64, h: bv64)
    ensures Xor(Xor(Xor(Xor(Xor(Xor(Xor(a, b), c), d), e), f), g), h)
         == Xor(Xor(Xor(Xor(Xor(Xor(Xor(h, g), f), e), d), c), b), a)
  {
    hide Xor;
    LeftToRight(h, g, f, e, d, c, b, a);
    var ab := Xor(a, b);
    var abc := Xor(ab, c);
    var abcd := Xor(abc, d);
    var abcde := Xor(abcd, e);
    var abcdef := Xor(abcde, f);
    var abcdefg := Xor(abcdef, g);
    XorCommutes(a, b);
    XorCommutes(ab, c);
    XorCommutes(abc, d);
    XorCommutes(abcd, e);
    XorCommutes(abcde, f);
    XorCommutes(abcdef, g);
    XorCommutes(abcdefg, h);
  }

  /** Reversing the bytes of a sum of eight terms. */
  lemma Rev8Sum(a: bv64, b: bv64, c: bv64, d: bv64, e: bv64, f: bv64, g: bv64, h: bv64)
    ensures Rev8(Xor(Xor(Xor(Xor(Xor(Xor(Xor(a, b), c), d), e), f), g), h))
         == Xor(Xor(Xor(Xor(Xor(Xor(Xor(Rev8(a), Rev8(b)), Rev8(c)), Rev8(d)), Rev8(e)), Rev8(f)), Rev8(g)), Rev8(h))
  {
    hide Xor, Rev8;
    var ab := Xor(a, b);
    var abc := Xor(ab, c);
    var abcd := Xor(abc, d);
    var abcde := Xor(abcd, e);
    var abcdef := Xor(abcde, f);
    Rev8Xor(a, b);
    Rev8Xor(ab, c);
    Rev8Xor(abc, d);
    Rev8Xor(abcd, e);
    Rev8Xor(abcde, f);
    Rev8Xor(abcdef, g);
    Rev8Xor(Xor(abcdef, g), h);
  }

  /** The tables of a big-endian machine: every entry byte-reversed. */
  ghost predicate BigReady(table: array2<bv64>)
    requires table.Length0 == 8 && table.Length1 == 256
    reads table
  {
    forall k: nat, b: Byte :: k < 8 ==> table[k, b as int] == Rev8(Entry(k, b))
  }

  /** `crcspeed64big_init`. */
  method InitBig(engine: Engine)
    requires engine.Valid()
    modifies engine.table
    ensures engine.Valid() && BigReady(engine.table)
  {
    hide Rev8, Entry;
    engine.InitLittle();
    var table := engine.table;
    label filled:
    for k := 0 to 8
      invariant engine.Valid()
      invariant forall i, j :: 0 <= i < k && 0 <= j < 256 ==> table[i, j] == Rev8(old@filled(table[i, j]))
      invariant forall i, j :: k <= i < 8 && 0 <= j < 256 ==> table[i, j] == old@filled(table[i, j])
    {
      for n := 0 to 256
        invariant engine.Valid()
        invariant forall i, j :: 0 <= i < k && 0 <= j < 256 ==> table[i, j] == Rev8(old@filled(table[i, j]))
        invariant forall j :: 0 <= j < n ==> table[k, j] == Rev8(old@filled(table[k, j]))
        invariant forall j :: n <= j < 256 ==> table[k, j] == old@filled(table[k, j])
        invariant forall i, j :: k < i < 8 && 0 <= j < 256 ==> table[i, j] == old@filled(table[i, j])
      {
        table[k, n] := Rev8(table[k, n]);
      }
    }
    forall k: nat, b: Byte | k < 8
      ensures table[k, b as int] == Rev8(Entry(k, b))
    {
      ByteIndex(b);
    }
  }

  function Lookup(table: array2<bv64>, k: nat, b: Byte): (e: bv64)
    requires table.Length0 == 8 && table.Length1 == 256 && BigReady(table) && k < 8
    reads table
    ensures e == Rev8(Entry(k, b))
  {
    ByteIndex(b);
    table[k, b as int]
  }

  /** One byte on a big-endian machine. */
  method Do1(table: array2<bv64>, crc: bv64, b: Byte, ghost c: bv64) returns (r: bv64)
    requires table.Length0 == 8 && table.Length1 == 256 && BigReady(table)
    requires crc == Rev8(c)
    ensures r == Rev8(CrcByte(c, b))
  {
    hide Rev8, Entry, LowByte, Xor, ShiftDown, ShiftUp, CrcByte, Wide, TopIndex;
    ByteStep(c, b);
    TopIndexIsLow(c, b);
    Rev8Shift(c);
    Rev8Xor(Entry(0, TopIndex(crc, b)), ShiftDown(c));
    r := Xor(Lookup(table, 0, TopIndex(crc, b)), ShiftUp(crc));
  }

  /** Eight bytes on a big-endian machine, which loads them as the reversed word. */
  method Do8(table: array2<bv64>, crc: bv64, buf: seq<Byte>, next: nat, ghost c: bv64) returns (r: bv64)
    requires table.Length0 == 8 && table.Length1 == 256 && BigReady(table) && next + 8 <= |buf|
    requires crc == Rev8(c)
    ensures r == Rev8(Crc(c, buf[next..next + 8]))
  {
    ghost var v := Xor(c, LittleEndian(buf[next..next + 8]));
    ShiftAmounts(v);
    CrcOfWord(c, buf[next..next + 8]);
    EightSlices(v);
    Rev8Xor(c, LittleEndian(buf[next..next + 8]));
    Rev8Bytes(v);
    hide Rev8, Entry, LowByte, Xor, DownBytes, ZeroBits, LittleEndian;
    Rev8Sum(Slice(7, v), Slice(6, v), Slice(5, v), Slice(4, v), Slice(3, v), Slice(2, v), Slice(1, v), Slice(0, v));
    ReverseSum(Rev8(Slice(7, v)), Rev8(Slice(6, v)), Rev8(Slice(5, v)), Rev8(Slice(4, v)),
               Rev8(Slice(3, v)), Rev8(Slice(2, v)), Rev8(Slice(1, v)), Rev8(Slice(0, v)));
    var w := Xor(crc, Rev8(LittleEndian(buf[next..next + 8])));
    r := Xor(Xor(Xor(Xor(Xor(Xor(Xor(
             Lookup(table, 0, LowByte(w)), Lookup(table, 1, LowByte(w >> 8))), Lookup(table, 2, LowByte(w >> 16))),
             Lookup(table, 3, LowByte(w >> 24))), Lookup(table, 4, LowByte(w >> 32))), Lookup(table, 5, LowByte(w >> 40))),
             Lookup(table, 6, LowByte(w >> 48))), Lookup(table, 7, LowByte(w >> 56)));
  }

  /** `crcspeed64big` on a buffer that starts at address `addr`. */
  method Big(table: array2<bv64>, start: bv64, addr: nat, buf: seq<Byte>) returns (r: bv64)
    requires table.Length0 == 8 && table.Length1 == 256 && BigReady(table)
    ensures r == Crc(start, buf)
  {
    hide Crc, CrcByte, Rev8;
    var crc := Rev8(start);
    var next, len := 0, |buf|;
    EmptyPiece(start, buf, 0);
    while len != 0 && (addr + next) % 8 != 0
      invariant 0 <= next <= |buf| && len == |buf| - next
      invariant crc == Rev8(Crc(start, buf[0..next]))
    {
      CrcExtend(start, buf, 0, next, next + 1);
      CrcOneByte(Crc(start, buf[0..next]), buf, next);
      crc := Do1(table, crc, buf[next], Crc(start, buf[0..next]));
      next, len := next + 1, len - 1;
    }
    while len >= 8
      invariant 0 <= next <= |buf| && len == |buf| - next
      invariant crc == Rev8(Crc(start, buf[0..next]))
    {
      CrcExtend(start, buf, 0, next, next + 8);
      crc := Do8(table, crc, buf, next, Crc(start, buf[0..next]));
      next, len := next + 8, len - 8;
    }
    while len != 0
      invariant 0 <= next <= |buf| && len == |buf| - next
      invariant crc == Rev8(Crc(start, buf[0..next]))
    {
      CrcExtend(start, buf, 0, next, next + 1);
      CrcOneByte(Crc(start, buf[0..next]), buf, next);
      crc := Do1(table, crc, buf[next], Crc(start, buf[0..next]));
      next, len := next + 1, len - 1;
    }
    assert buf[0..next] == buf;
    Rev8Involution(Crc(start, buf));
    r := Rev8(crc);
  }

  /** `crc64_init` on a machine of either byte order. */
  method Crc64Init(engine: Engine, littleEndian: bool)
    requires engine.Valid()
    modifies engine.table
    ensures engine.Valid()
    ensures if littleEndian then engine.LittleReady() else BigReady(engine.table)
  {
    if littleEndian {
      engine.InitLittle();
    } else {
      InitBig(engine);
    }
  }

  /**
    `crc64`: whatever the byte order, alignment and cutoffs, the value the
    bit-by-bit reference computes from the reflected start value.
    */
  method Crc64(engine: Engine, littleEndian: bool, crc: bv64, addr: nat, s: seq<Byte>) returns (r: bv64)
    requires engine.Valid() && |s| < PowerOfTwo.Pow2(64)
    requires if littleEndian then engine.LittleReady() else BigReady(engine.table)
    modifies engine.cache
    ensures engine.Valid()
    ensures r == Crc(crc, s) == Crc(Bitwise.Reflect(Bitwise.Reflect(crc)), s)
  {
    Bitwise.ReflectInvolution(crc);
    hide Bitwise.Reflect, Crc, BigReady;
    if littleEndian {
      r := engine.Little(crc, addr, s);
    } else {
      r := Big(engine.table, crc, addr, s);
    }
  }
}
