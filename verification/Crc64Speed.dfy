/**
  The table-driven CRC-64 of crcspeed.c: lookup tables, eight bytes per step, and
  buffers split in two or three segments whose checksums are joined at the end.
  */
module Crc64Speed {
  import opened Crc64Spec
  import Bitwise = Crc64Bitwise
  import Join = Crc64Combine
  import PowerOfTwo

  // ---- bytes of a word ----

  function LowByte(v: bv64): Byte { (v & 0xff) as Byte }

  /** What table `k` holds for byte `b`: the byte followed by `k` zero bytes. */
  function Entry(k: nat, b: Byte): bv64 { ZeroBits(8 * (k + 1), Wide(b)) }

  lemma SplitLowByte(v: bv64)
    ensures Xor(Wide(LowByte(v)), ShiftUp(ShiftDown(v))) == v
    ensures TopByteClear(ShiftDown(v))
  {
    WideLowByte(v);
    ShiftBack(v);
    TopClear(v);
    LowAndHigh(v);
    hide Wide, LowByte, ShiftUp, ShiftDown, TopByteClear;
  }

  lemma WideLowByte(v: bv64)
    ensures Wide(LowByte(v)) == v & 0xff
  {
  }

  lemma ShiftBack(v: bv64)
    ensures ShiftUp(ShiftDown(v)) == (v >> 8) << 8
  {
  }

  lemma TopClear(v: bv64)
    ensures TopByteClear(ShiftDown(v))
  {
  }

  lemma LowAndHigh(v: bv64)
    ensures (v & 0xff) ^ ((v >> 8) << 8) == v
  {
  }

  lemma ByteIndex(b: Byte)
    ensures 0 <= b as int < 256 && (b as int) as Byte == b
  {
  }

  /** The low byte goes through the table, the rest only moves down. */
  lemma Peel(m: nat, v: bv64)
    ensures ZeroBits(8 * (m + 1), v) == Xor(Entry(m, LowByte(v)), ZeroBits(8 * m, ShiftDown(v)))
  {
    hide ZeroBits, Xor, ShiftUp, ShiftDown, Wide, LowByte, TopByteClear;
    SplitLowByte(v);
    var low, high := Wide(LowByte(v)), ShiftUp(ShiftDown(v));
    ZeroBitsLinear(8 * (m + 1), low, high);
    ZeroBitsCompose(8, 8 * m, high);
    ShiftUpAndClock(ShiftDown(v));
  }

  lemma TableStep(v: bv64)
    ensures ZeroBits(8, v) == Xor(Entry(0, LowByte(v)), ShiftDown(v))
  {
    hide ZeroBits, Xor, ShiftDown, LowByte, Entry;
    Peel(0, v);
    ZeroBitsNone(ShiftDown(v));
  }

  /** The byte-at-a-time step of every loop. */
  lemma ByteStep(crc: bv64, b: Byte)
    ensures CrcByte(crc, b) == Xor(Entry(0, LowByte(Xor(crc, Wide(b)))), ShiftDown(crc))
  {
    TableStep(Xor(crc, Wide(b)));
    assert ShiftDown(Xor(crc, Wide(b))) == ShiftDown(crc) by {
      calc {
        ShiftDown(Xor(crc, Wide(b)));
        (crc ^ (b as bv64)) >> 8;
        crc >> 8;
      }
    }
    hide ZeroBits, Xor, ShiftDown, LowByte, Entry;
  }

  /** The low `m` bytes of `v`, each through its own table. */
  function SliceSum(m: nat, v: bv64): bv64 {
    if m == 0 then 0 else Xor(Entry(m - 1, LowByte(v)), SliceSum(m - 1, ShiftDown(v)))
  }

  function DownBytes(m: nat, v: bv64): bv64 {
    if m == 0 then v else DownBytes(m - 1, ShiftDown(v))
  }

  lemma {:induction false} SlicesClockTheWord(m: nat, v: bv64)
    requires DownBytes(m, v) == 0
    ensures SliceSum(m, v) == ZeroBits(8 * m, v)
  {
    hide ZeroBits, Xor, ShiftDown, LowByte, Entry;
    if m == 0 {
      ZeroBitsNone(v);
    } else {
      SlicesClockTheWord(m - 1, ShiftDown(v));
      Peel(m - 1, v);
    }
  }

  lemma {:induction false} DownBytesCompose(m: nat, n: nat, v: bv64)
    ensures DownBytes(m + n, v) == DownBytes(n, DownBytes(m, v))
  {
    hide ShiftDown;
    if m > 0 { DownBytesCompose(m - 1, n, ShiftDown(v)); }
  }

  lemma DownEight(v: bv64)
    ensures DownBytes(8, v) == 0
  {
    hide DownBytes;
    ShiftAmounts(v);
    calc { DownBytes(8, v); { DownNext(7, v); } ShiftDown(v >> 56); (v >> 56) >> 8; 0; }
  }

  lemma LeftToRight(a: bv64, b: bv64, c: bv64, d: bv64, e: bv64, f: bv64, g: bv64, h: bv64)
    ensures Xor(Xor(Xor(Xor(Xor(Xor(Xor(a, b), c), d), e), f), g), h)
         == Xor(a, Xor(b, Xor(c, Xor(d, Xor(e, Xor(f, Xor(g, h)))))))
  {
    hide Xor;
    var ab := Xor(a, b);
    var abc := Xor(ab, c);
    var abcd := Xor(abc, d);
    var abcde := Xor(abcd, e);
    var abcdef := Xor(abcde, f);
    XorAssociates(abcdef, g, h);
    XorAssociates(abcde, f, Xor(g, h));
    XorAssociates(abcd, e, Xor(f, Xor(g, h)));
    XorAssociates(abc, d, Xor(e, Xor(f, Xor(g, h))));
    XorAssociates(ab, c, Xor(d, Xor(e, Xor(f, Xor(g, h)))));
    XorAssociates(a, b, Xor(c, Xor(d, Xor(e, Xor(f, Xor(g, h))))));
  }

  /** Byte `7 - k` of the word through table `k`. */
  function Slice(k: nat, v: bv64): bv64
    requires k < 8
  {
    Entry(k, LowByte(DownBytes(7 - k, v)))
  }

  lemma SlicesInOrder(v: bv64)
    ensures ZeroBits(64, v) == Xor(Slice(7, v), Xor(Slice(6, v), Xor(Slice(5, v), Xor(Slice(4, v),
                               Xor(Slice(3, v), Xor(Slice(2, v), Xor(Slice(1, v), Slice(0, v))))))))
  {
    hide ZeroBits, Xor, ShiftDown, LowByte, Entry, DownBytes, SliceSum, Slice;
    DownEight(v);
    SlicesClockTheWord(8, v);
    SliceTail(1, v);
    SliceTail(2, v);
    SliceTail(3, v);
    SliceTail(4, v);
    SliceTail(5, v);
    SliceTail(6, v);
    SliceTail(7, v);
    SliceTail(8, v);
    XorZero(Slice(0, v));
  }

  /** The eight table lookups of one word clock it through 64 zero bits. */
  lemma EightSlices(v: bv64)
    ensures ZeroBits(64, v) == Xor(Xor(Xor(Xor(Xor(Xor(Xor(Slice(7, v), Slice(6, v)), Slice(5, v)), Slice(4, v)),
                               Slice(3, v)), Slice(2, v)), Slice(1, v)), Slice(0, v))
  {
    hide ZeroBits, Xor, Slice;
    SlicesInOrder(v);
    LeftToRight(Slice(7, v), Slice(6, v), Slice(5, v), Slice(4, v), Slice(3, v), Slice(2, v), Slice(1, v), Slice(0, v));
  }

  /** Unfolds one slice counted from the start of the word. */
  lemma SliceTail(m: nat, v: bv64)
    requires 1 <= m <= 8
    ensures SliceSum(m, DownBytes(8 - m, v)) == Xor(Slice(m - 1, v), SliceSum(m - 1, DownBytes(9 - m, v)))
    ensures DownBytes(0, v) == v && SliceSum(0, DownBytes(8, v)) == 0
  {
    hide Xor, ShiftDown, LowByte, Entry;
    DownNext(8 - m, v);
  }

  lemma DownNext(m: nat, v: bv64)
    ensures DownBytes(m + 1, v) == ShiftDown(DownBytes(m, v))
  {
    hide ShiftDown;
    DownBytesCompose(m, 1, v);
    var w := DownBytes(m, v);
    assert DownBytes(1, w) == ShiftDown(w);
  }

  lemma ShiftAmounts(v: bv64)
    ensures DownBytes(0, v) == v && DownBytes(1, v) == v >> 8 && DownBytes(2, v) == v >> 16
    ensures DownBytes(3, v) == v >> 24 && DownBytes(4, v) == v >> 32 && DownBytes(5, v) == v >> 40
    ensures DownBytes(6, v) == v >> 48 && DownBytes(7, v) == v >> 56
  {
    DownNone(v);
    hide DownBytes;
    calc { DownBytes(1, v); { DownNext(0, v); } ShiftDown(v); v >> 8; }
    calc { DownBytes(2, v); { DownNext(1, v); } ShiftDown(v >> 8); (v >> 8) >> 8; v >> 16; }
    calc { DownBytes(3, v); { DownNext(2, v); } ShiftDown(v >> 16); (v >> 16) >> 8; v >> 24; }
    calc { DownBytes(4, v); { DownNext(3, v); } ShiftDown(v >> 24); (v >> 24) >> 8; v >> 32; }
    calc { DownBytes(5, v); { DownNext(4, v); } ShiftDown(v >> 32); (v >> 32) >> 8; v >> 40; }
    calc { DownBytes(6, v); { DownNext(5, v); } ShiftDown(v >> 40); (v >> 40) >> 8; v >> 48; }
    calc { DownBytes(7, v); { DownNext(6, v); } ShiftDown(v >> 48); (v >> 48) >> 8; v >> 56; }
  }

  lemma DownNone(v: bv64)
    ensures DownBytes(0, v) == v
  {
  }

  // ---- the buffer ----

  /** A checksum over adjacent pieces of a buffer. */
  lemma CrcExtend(crc: bv64, buf: seq<Byte>, lo: nat, mid: nat, hi: nat)
    requires lo <= mid <= hi <= |buf|
    ensures Crc(crc, buf[lo..hi]) == Crc(Crc(crc, buf[lo..mid]), buf[mid..hi])
  {
    assert buf[lo..hi] == buf[lo..mid] + buf[mid..hi];
    CrcAppend(crc, buf[lo..mid], buf[mid..hi]);
  }

  lemma EmptyPiece(crc: bv64, buf: seq<Byte>, i: nat)
    requires i <= |buf|
    ensures Crc(crc, buf[i..i]) == crc
  {
  }

  lemma CrcOneByte(crc: bv64, buf: seq<Byte>, i: nat)
    requires i < |buf|
    ensures Crc(crc, buf[i..i + 1]) == CrcByte(crc, buf[i])
  {
    hide CrcByte;
    assert buf[i..i + 1] == [buf[i]];
    assert Crc(CrcByte(crc, buf[i]), []) == CrcByte(crc, buf[i]);
  }

  /** `x & CRC64_LEN_MASK`: the top bit and the three low bits of a 64-bit length dropped. */
  function LenMask(x: nat): (r: nat)
    ensures r <= x && r % 8 == 0
  {
    x % 0x8000_0000_0000_0000 / 8 * 8
  }

  class Engine {
    /** `crc64_table`: eight tables of 256 entries. */
    const table: array2<bv64>
    /** `combine_cache`: sixty-four 64 by 64 matrices. */
    const cache: array2<bv64>
    var dualCutoff: nat
    var triCutoff: nat

    ghost predicate Valid()
      reads this, cache
    {
      && table.Length0 == 8 && table.Length1 == 256
      && cache.Length0 == 64 && cache.Length1 == 64
      && table != cache
      && (cache[0, 0] == 0 || Join.CacheReady(cache))
    }

    /** The tables of a little-endian machine. */
    ghost predicate LittleReady()
      requires table.Length0 == 8 && table.Length1 == 256
      reads table
    {
      forall k: nat, b: Byte :: k < 8 ==> table[k, b as int] == Entry(k, b)
    }

    /** Static storage starts zeroed, with the default cutoffs. */
    constructor ()
      ensures Valid() && fresh(table) && fresh(cache)
      ensures dualCutoff == 1024 && triCutoff == 16 * 1024
    {
      table := new bv64[8, 256]((i, j) => 0);
      cache := new bv64[64, 64]((i, j) => 0);
      dualCutoff := 1024;
      triCutoff := 16 * 1024;
    }

    method SetCutoffs(dual: nat, tri: nat)
      modifies this
      ensures dualCutoff == dual && triCutoff == tri
    {
      dualCutoff := dual;
      triCutoff := tri;
    }

    /** `crcspeed64little_init`: table 0 from the bitwise reference, each next table from table 0. */
    method InitLittle()
      requires Valid()
      modifies table
      ensures Valid() && LittleReady()
    {
      hide Entry, LowByte, Xor, ShiftDown;
      for n := 0 to 256
        invariant Valid()
        invariant forall m :: 0 <= m < n ==> table[0, m] == Entry(0, m as Byte)
      {
        var v := n as Byte;
        table[0, n] := Bitwise.Crc64(0, [v]);
        FirstTable(v);
      }
      for n := 0 to 256
        invariant Valid()
        invariant forall m :: 0 <= m < 256 ==> table[0, m] == Entry(0, m as Byte)
        invariant forall k, m :: 1 <= k < 8 && 0 <= m < n ==> table[k, m] == Entry(k, m as Byte)
      {
        FillColumn(n);
      }
      forall k: nat, b: Byte | k < 8
        ensures table[k, b as int] == Entry(k, b)
      {
        ByteIndex(b);
      }
    }

    /** The entries of byte `n` in tables 1 to 7. */
    method FillColumn(n: nat)
      requires Valid() && n < 256
      requires forall m :: 0 <= m < 256 ==> table[0, m] == Entry(0, m as Byte)
      modifies table
      ensures Valid()
      ensures forall k, m :: 0 <= k < 8 && 0 <= m < 256 && (k == 0 || m != n) ==> table[k, m] == old(table[k, m])
      ensures forall k :: 1 <= k < 8 ==> table[k, n] == Entry(k, n as Byte)
    {
      hide Entry, LowByte, Xor, ShiftDown;
      var crc := table[0, n];
      for k := 1 to 8
        invariant Valid()
        invariant crc == Entry(k - 1, n as Byte)
        invariant forall j, m :: 0 <= j < 8 && 0 <= m < 256 && (j == 0 || m != n) ==> table[j, m] == old(table[j, m])
        invariant forall j :: 1 <= j < k ==> table[j, n] == Entry(j, n as Byte)
      {
        ByteIndex(LowByte(crc));
        NextTable(k - 1, n as Byte);
        crc := Xor(table[0, LowByte(crc) as int], ShiftDown(crc));
        table[k, n] := crc;
      }
    }

    /** One byte through table 0. */
    method Do1(crc: bv64, b: Byte) returns (r: bv64)
      requires Valid() && LittleReady()
      ensures r == CrcByte(crc, b)
    {
      hide Entry, LowByte, Xor, ShiftDown, CrcByte, Wide;
      ByteStep(crc, b);
      ByteIndex(LowByte(Xor(crc, Wide(b))));
      r := Xor(table[0, LowByte(Xor(crc, Wide(b))) as int], ShiftDown(crc));
    }

    /** `DO_8_1` and `DO_8_2`: the next eight bytes of the buffer in one step. */
    method Do8(crc: bv64, buf: seq<Byte>, next: nat) returns (r: bv64)
      requires Valid() && LittleReady() && next + 8 <= |buf|
      ensures r == Crc(crc, buf[next..next + 8])
    {
      hide Entry, LowByte, Xor, DownBytes, ZeroBits, Crc, LittleEndian;
      var v := Xor(crc, LittleEndian(buf[next..next + 8]));
      ShiftAmounts(v);
      CrcOfWord(crc, buf[next..next + 8]);
      EightSlices(v);
      r := Xor(Xor(Xor(Xor(Xor(Xor(Xor(
               Lookup(7, LowByte(v)), Lookup(6, LowByte(v >> 8))), Lookup(5, LowByte(v >> 16))),
               Lookup(4, LowByte(v >> 24))), Lookup(3, LowByte(v >> 32))), Lookup(2, LowByte(v >> 40))),
               Lookup(1, LowByte(v >> 48))), Lookup(0, LowByte(v >> 56)));
    }

    function Lookup(k: nat, b: Byte): (e: bv64)
      requires Valid() && LittleReady() && k < 8
      reads this, table, cache
      ensures e == Entry(k, b)
    {
      ByteIndex(b);
      table[k, b as int]
    }

    /** The three-way loop: equal segments at `lo1`, `lo2` and `lo3` checked side by side. */
    method TripleLoop(start: bv64, buf: seq<Byte>, lo1: nat, lo2: nat, lo3: nat)
      returns (crc1: bv64, crc2: bv64, crc3: bv64)
      requires Valid() && LittleReady()
      requires lo1 <= lo2 && lo3 - lo2 == lo2 - lo1 && lo3 + (lo2 - lo1) <= |buf| && (lo2 - lo1) % 8 == 0
      ensures crc1 == Crc(start, buf[lo1..lo2])
      ensures crc2 == Crc(0, buf[lo2..lo3])
      ensures crc3 == Crc(0, buf[lo3..lo3 + (lo2 - lo1)])
    {
      hide Crc;
      crc1, crc2, crc3 := start, 0, 0;
      var next1, next2, next3, len := lo1, lo2, lo3, lo2 - lo1;
      EmptyPiece(start, buf, lo1);
      EmptyPiece(0, buf, lo2);
      EmptyPiece(0, buf, lo3);
      while len >= 8
        invariant 0 <= len <= lo2 - lo1 && len % 8 == 0
        invariant next1 == lo2 - len && next2 == lo3 - len && next3 == lo3 + (lo2 - lo1) - len
        invariant crc1 == Crc(start, buf[lo1..next1])
        invariant crc2 == Crc(0, buf[lo2..next2])
        invariant crc3 == Crc(0, buf[lo3..next3])
      {
        len := len - 8;
        CrcExtend(start, buf, lo1, next1, next1 + 8);
        CrcExtend(0, buf, lo2, next2, next2 + 8);
        CrcExtend(0, buf, lo3, next3, next3 + 8);
        crc1 := Do8(crc1, buf, next1);
        crc2 := Do8(crc2, buf, next2);
        crc3 := Do8(crc3, buf, next3);
        next1, next2, next3 := next1 + 8, next2 + 8, next3 + 8;
      }
    }

    /** The three-way section: three segments, then two merges. */
    method Triple(start: bv64, buf: seq<Byte>, next: nat) returns (crc1: bv64, next1: nat)
      requires Valid() && LittleReady() && next <= |buf| < PowerOfTwo.Pow2(64)
      modifies cache
      ensures Valid() && next <= next1 <= |buf|
      ensures crc1 == Crc(start, buf[next..next1])
    {
      hide Crc, PowerOfTwo.Pow2, LenMask;
      var seg := LenMask((|buf| - next) / 3);
      var next2 := next + seg;
      var next3 := next2 + seg;
      var crc2, crc3;
      crc1, crc2, crc3 := TripleLoop(start, buf, next, next2, next3);
      CrcExtend(start, buf, next, next2, next3);
      CrcExtend(start, buf, next, next3, next3 + seg);
      crc1 := Join.Combine(cache, crc1, crc2, seg);
      crc1 := Join.Combine(cache, crc1, crc3, seg);
      next1 := next3 + seg;
    }

    /** The two-way loop: equal segments at `lo1` and `lo2` checked side by side. */
    method DualLoop(start: bv64, buf: seq<Byte>, lo1: nat, lo2: nat) returns (crc1: bv64, crc2: bv64)
      requires Valid() && LittleReady()
      requires lo1 <= lo2 && lo2 + (lo2 - lo1) <= |buf| && (lo2 - lo1) % 8 == 0
      ensures crc1 == Crc(start, buf[lo1..lo2])
      ensures crc2 == Crc(0, buf[lo2..lo2 + (lo2 - lo1)])
    {
      hide Crc;
      crc1, crc2 := start, 0;
      var next1, next2, len := lo1, lo2, lo2 - lo1;
      EmptyPiece(start, buf, lo1);
      EmptyPiece(0, buf, lo2);
      while len >= 8
        invariant 0 <= len <= lo2 - lo1 && len % 8 == 0
        invariant next1 == lo2 - len && next2 == lo2 + (lo2 - lo1) - len
        invariant crc1 == Crc(start, buf[lo1..next1])
        invariant crc2 == Crc(0, buf[lo2..next2])
      {
        len := len - 8;
        CrcExtend(start, buf, lo1, next1, next1 + 8);
        CrcExtend(0, buf, lo2, next2, next2 + 8);
        crc1 := Do8(crc1, buf, next1);
        crc2 := Do8(crc2, buf, next2);
        next1, next2 := next1 + 8, next2 + 8;
      }
    }

    /** The two-way section: two segments, then one merge. */
    method Dual(start: bv64, buf: seq<Byte>, next: nat) returns (crc1: bv64, next1: nat)
      requires Valid() && LittleReady() && next <= |buf| < PowerOfTwo.Pow2(64)
      modifies cache
      ensures Valid() && next <= next1 <= |buf|
      ensures crc1 == Crc(start, buf[next..next1])
    {
      hide Crc, PowerOfTwo.Pow2, LenMask;
      var seg := LenMask((|buf| - next) / 2);
      var next2 := next + seg;
      var crc2;
      crc1, crc2 := DualLoop(start, buf, next, next2);
      CrcExtend(start, buf, next, next2, next2 + seg);
      crc1 := Join.Combine(cache, crc1, crc2, seg);
      next1 := next2 + seg;
    }

    /**
      `crcspeed64little` on a buffer that starts at address `addr`: for every
      alignment and every pair of cutoffs the checksum of the whole buffer.
      */
    method Little(start: bv64, addr: nat, buf: seq<Byte>) returns (crc1: bv64)
      requires Valid() && LittleReady() && |buf| < PowerOfTwo.Pow2(64)
      modifies cache
      ensures Valid() && crc1 == Crc(start, buf)
    {
      hide Crc, CrcByte, PowerOfTwo.Pow2;
      crc1 := start;
      var next1, len := 0, |buf|;
      EmptyPiece(start, buf, 0);
      if dualCutoff >= 1 {
        while len != 0 && (addr + next1) % 8 != 0
          invariant Valid() && LittleReady()
          invariant 0 <= next1 <= |buf| && len == |buf| - next1
          invariant crc1 == Crc(start, buf[0..next1])
        {
          CrcExtend(start, buf, 0, next1, next1 + 1);
          CrcOneByte(crc1, buf, next1);
          crc1 := Do1(crc1, buf[next1]);
          next1, len := next1 + 1, len - 1;
        }
        var reached := next1;
        if len > triCutoff {
          crc1, next1 := Triple(crc1, buf, next1);
        } else if len > dualCutoff {
          crc1, next1 := Dual(crc1, buf, next1);
        } else {
          EmptyPiece(crc1, buf, next1);
        }
        CrcExtend(start, buf, 0, reached, next1);
        len := |buf| - next1;
        while len >= 8
          invariant Valid() && LittleReady()
          invariant 0 <= next1 <= |buf| && len == |buf| - next1
          invariant crc1 == Crc(start, buf[0..next1])
        {
          CrcExtend(start, buf, 0, next1, next1 + 8);
          crc1 := Do8(crc1, buf, next1);
          next1, len := next1 + 8, len - 8;
        }
      }
      while len != 0
        invariant Valid() && LittleReady()
        invariant 0 <= next1 <= |buf| && len == |buf| - next1
        invariant crc1 == Crc(start, buf[0..next1])
      {
        CrcExtend(start, buf, 0, next1, next1 + 1);
        CrcOneByte(crc1, buf, next1);
        crc1 := Do1(crc1, buf[next1]);
        next1, len := next1 + 1, len - 1;
      }
      assert buf[0..next1] == buf;
    }
  }

  lemma FirstTable(b: Byte)
    ensures Crc(Bitwise.Reflect(0), [b]) == Entry(0, b)
  {
    Bitwise.ReflectConstants();
    hide Bitwise.Reflect;
    XorZero(Wide(b));
    hide Xor;
    assert [b][1..] == [];
    assert Crc(CrcByte(0, b), []) == CrcByte(0, b);
  }

  lemma NextTable(k: nat, b: Byte)
    ensures Entry(k + 1, b) == Xor(Entry(0, LowByte(Entry(k, b))), ShiftDown(Entry(k, b)))
  {
    hide ZeroBits, Xor, ShiftDown, LowByte, Wide;
    TableStep(Entry(k, b));
    ZeroBitsCompose(8 * (k + 1), 8, Wide(b));
  }
}
