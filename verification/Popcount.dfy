/**
  redisPopcount: bits are counted byte by byte until an aligned address, then
  in wide steps, then byte by byte again. The step without a popcnt
  instruction adds up seven 32-bit words inside their bytes.
  */
module Popcount {
  import opened Basics
  import opened BitString

  /** bitsinbyte */
  function PopByte(b: bv8): (n: nat)
    ensures n <= 8
  {
    Count(BitOf(b, 0)) + Count(BitOf(b, 1)) + Count(BitOf(b, 2)) + Count(BitOf(b, 3)) +
    Count(BitOf(b, 4)) + Count(BitOf(b, 5)) + Count(BitOf(b, 6)) + Count(BitOf(b, 7))
  }

  function PopBytes(s: Bytes): nat {
    if s == [] then 0 else PopByte(s[0]) + PopBytes(s[1..])
  }

  lemma {:induction false} PopAppend(a: Bytes, b: Bytes)
    ensures PopBytes(a + b) == PopBytes(a) + PopBytes(b)
    decreases |a|
  {
    hide PopByte;
    if a == [] {
      assert a + b == b;
    } else {
      assert (a + b)[1..] == a[1..] + b;
      PopAppend(a[1..], b);
    }
  }

  /** The count up to `j` grows by the bytes from `i` to `j`. */
  lemma PopStep(s: Bytes, i: nat, j: nat)
    requires i <= j <= |s|
    ensures PopBytes(s[..j]) == PopBytes(s[..i]) + PopBytes(s[i..j])
  {
    assert s[..j] == s[..i] + s[i..j];
    PopAppend(s[..i], s[i..j]);
  }

  lemma PopOne(s: Bytes, i: nat)
    requires i < |s|
    ensures PopBytes(s[..i + 1]) == PopBytes(s[..i]) + PopByte(s[i])
  {
    hide PopByte;
    PopStep(s, i, i + 1);
    assert s[i..i + 1] == [s[i]] && [s[i]][1..] == [];
  }

  // ---- one word ----

  function Val(x: bv32): nat { x as int }

  function One(v: bool): (r: bv32)
    ensures r <= 1 && Val(r) == Count(v)
  {
    if v then 1 else 0
  }

  /** The ones of a byte, counted in a word. */
  function Ones(b: bv8): bv32 {
    One(BitOf(b, 0)) + One(BitOf(b, 1)) + One(BitOf(b, 2)) + One(BitOf(b, 3)) +
    One(BitOf(b, 4)) + One(BitOf(b, 5)) + One(BitOf(b, 6)) + One(BitOf(b, 7))
  }

  function Pairs(a: bv32): bv32 { a - ((a >> 1) & 0x55555555) }

  function Nibbles(a: bv32): bv32 { (a & 0x33333333) + ((a >> 2) & 0x33333333) }

  function ByteCounts(a: bv32): bv32 { (a + (a >> 4)) & 0x0F0F0F0F }

  /** What the code makes of one word before adding. */
  function Swar(a: bv32): bv32 { ByteCounts(Nibbles(Pairs(a))) }

  /** A word as the processor loads it, first byte lowest. */
  function Load(b0: bv8, b1: bv8, b2: bv8, b3: bv8): bv32 {
    b0 as bv32 | (b1 as bv32 << 8) | (b2 as bv32 << 16) | (b3 as bv32 << 24)
  }

  lemma SwarByte0(b0: bv8, b1: bv8, b2: bv8, b3: bv8)
    ensures Swar(Load(b0, b1, b2, b3)) & 0xFF == Ones(b0)
  {
  }

  lemma SwarByte1(b0: bv8, b1: bv8, b2: bv8, b3: bv8)
    ensures (Swar(Load(b0, b1, b2, b3)) >> 8) & 0xFF == Ones(b1)
  {
  }

  lemma SwarByte2(b0: bv8, b1: bv8, b2: bv8, b3: bv8)
    ensures (Swar(Load(b0, b1, b2, b3)) >> 16) & 0xFF == Ones(b2)
  {
  }

  lemma SwarByte3(b0: bv8, b1: bv8, b2: bv8, b3: bv8)
    ensures Swar(Load(b0, b1, b2, b3)) >> 24 == Ones(b3)
  {
  }

  lemma OnesPop(b: bv8)
    ensures Val(Ones(b)) == PopByte(b)
  {
  }

  /** A word whose bytes are below 16, as a number. */
  lemma ValOfBytes(w: bv32)
    requires w & 0xF0F0F0F0 == 0
    ensures Val(w) == Val(w & 0xFF) + 0x100 * Val((w >> 8) & 0xFF) + 0x1_0000 * Val((w >> 16) & 0xFF) + 0x100_0000 * Val(w >> 24)
  {
  }

  lemma SwarSmall(a: bv32)
    ensures Swar(a) & 0xF0F0F0F0 == 0
  {
  }

  /** Four numbers side by side, 256 apart. */
  function Packed(c0: nat, c1: nat, c2: nat, c3: nat): nat { c0 + 0x100 * c1 + 0x1_0000 * c2 + 0x100_0000 * c3 }

  /** Each byte of the word is replaced by the number of its ones. */
  lemma SwarCounts(b0: bv8, b1: bv8, b2: bv8, b3: bv8)
    ensures Val(Swar(Load(b0, b1, b2, b3))) == Packed(PopByte(b0), PopByte(b1), PopByte(b2), PopByte(b3))
  {
    var w := Swar(Load(b0, b1, b2, b3));
    SwarSmall(Load(b0, b1, b2, b3));
    SwarByte0(b0, b1, b2, b3);
    SwarByte1(b0, b1, b2, b3);
    SwarByte2(b0, b1, b2, b3);
    SwarByte3(b0, b1, b2, b3);
    hide Swar, Load, Ones, Val, PopByte;
    ValOfBytes(w);
    OnesPop(b0);
    OnesPop(b1);
    OnesPop(b2);
    OnesPop(b3);
  }

  // ---- seven words ----

  const WORD := 0x1_0000_0000

  /** The product modulo 2^32, and its top byte. */
  function TopOfProduct(x: nat): nat { x * 0x01010101 % WORD / 0x100_0000 }

  lemma TopByte(low: int, m: int, high: int)
    requires 0 <= low < 0x100_0000 && 0 <= m < 256
    ensures (low + 0x100_0000 * m + WORD * high) % WORD / 0x100_0000 == m
  {
    var r := low + 0x100_0000 * m;
    assert (r + WORD * high) % WORD == r;
  }

  /** The multiplication adds the four bytes up in the top one: with seven words they sum to at most 224. */
  lemma ByteSum(c0: nat, c1: nat, c2: nat, c3: nat)
    requires c0 <= 56 && c1 <= 56 && c2 <= 56 && c3 <= 56
    ensures TopOfProduct(Packed(c0, c1, c2, c3)) == c0 + c1 + c2 + c3 <= 224
  {
    var low := c0 + 0x100 * (c0 + c1) + 0x1_0000 * (c0 + c1 + c2);
    var high := c1 + c2 + c3 + 0x100 * (c2 + c3) + 0x1_0000 * c3;
    TopByte(low, c0 + c1 + c2 + c3, high);
    assert Packed(c0, c1, c2, c3) * 0x01010101 == low + 0x100_0000 * (c0 + c1 + c2 + c3) + WORD * high;
  }

  function WordAt(s: Bytes, i: nat): bv32
    requires i + 4 <= |s|
  {
    Load(s[i], s[i + 1], s[i + 2], s[i + 3])
  }

  /** The byte counts of word `j` of a 28-byte step starting at `i`. */
  function CountsAt(s: Bytes, i: nat): nat
    requires i + 4 <= |s|
  {
    Val(Swar(WordAt(s, i)))
  }

  /** One turn of the loop over seven words. */
  function Seven(s: Bytes, i: nat): nat
    requires i + 28 <= |s|
  {
    TopOfProduct((CountsAt(s, i) + CountsAt(s, i + 4) + CountsAt(s, i + 8) + CountsAt(s, i + 12) +
                  CountsAt(s, i + 16) + CountsAt(s, i + 20) + CountsAt(s, i + 24)) % WORD)
  }

  /** The ones at every fourth byte, `n` times, from `i` on. */
  function Column(s: Bytes, i: nat, n: nat): (r: nat)
    requires n > 0 ==> i + 4 * n <= |s| + 3
    ensures r <= 8 * n
  {
    if n == 0 then 0 else Column(s, i, n - 1) + PopByte(s[i + 4 * (n - 1)])
  }

  /** The counts of the first `n` words of a step, added up. */
  function Sum(s: Bytes, i: nat, n: nat): nat
    requires i + 4 * n <= |s|
  {
    if n == 0 then 0 else Sum(s, i, n - 1) + CountsAt(s, i + 4 * (n - 1))
  }

  lemma ColumnsStep(s: Bytes, i: nat, n: nat)
    requires i + 4 * n <= |s| && n > 0
    ensures var k := i + 4 * (n - 1);
      && Column(s, i, n) == Column(s, i, n - 1) + PopByte(s[k])
      && Column(s, i + 1, n) == Column(s, i + 1, n - 1) + PopByte(s[k + 1])
      && Column(s, i + 2, n) == Column(s, i + 2, n - 1) + PopByte(s[k + 2])
      && Column(s, i + 3, n) == Column(s, i + 3, n - 1) + PopByte(s[k + 3])
  {
    hide PopByte;
  }

  lemma CountsPacked(s: Bytes, k: nat)
    requires k + 4 <= |s|
    ensures CountsAt(s, k) == Packed(PopByte(s[k]), PopByte(s[k + 1]), PopByte(s[k + 2]), PopByte(s[k + 3]))
  {
    hide Val, Swar, Load, PopByte;
    SwarCounts(s[k], s[k + 1], s[k + 2], s[k + 3]);
  }

  lemma SumNone(s: Bytes, i: nat)
    requires i <= |s|
    ensures Sum(s, i, 0) == 0 && Column(s, i, 0) == Column(s, i + 1, 0) == Column(s, i + 2, 0) == Column(s, i + 3, 0) == 0
  {
  }

  lemma {:induction false} SumPacked(s: Bytes, i: nat, n: nat)
    requires i + 4 * n <= |s| && n > 0
    ensures Sum(s, i, n) == Packed(Column(s, i, n), Column(s, i + 1, n), Column(s, i + 2, n), Column(s, i + 3, n))
  {
    hide CountsAt, PopByte;
    var k := i + 4 * (n - 1);
    CountsPacked(s, k);
    ColumnsStep(s, i, n);
    assert Sum(s, i, n) == Sum(s, i, n - 1) + CountsAt(s, k);
    hide Column, Sum;
    if n > 1 {
      SumPacked(s, i, n - 1);
    } else {
      SumNone(s, i);
    }
  }

  lemma {:induction false} ColumnsPop(s: Bytes, i: nat, n: nat)
    requires i + 4 * n <= |s| && n > 0
    ensures PopBytes(s[i..i + 4 * n]) == Column(s, i, n) + Column(s, i + 1, n) + Column(s, i + 2, n) + Column(s, i + 3, n)
  {
    hide PopByte, PopBytes, Column;
    var k := i + 4 * (n - 1);
    PopFour(s, k);
    ColumnsStep(s, i, n);
    if n == 1 {
      SumNone(s, i);
    } else {
      ColumnsPop(s, i, n - 1);
      PopSplit(s, i, k);
    }
  }

  lemma PopSplit(s: Bytes, i: nat, k: nat)
    requires i <= k && k + 4 <= |s|
    ensures PopBytes(s[i..k + 4]) == PopBytes(s[i..k]) + PopBytes(s[k..k + 4])
  {
    hide PopBytes;
    assert s[i..k + 4] == s[i..k] + s[k..k + 4];
    PopAppend(s[i..k], s[k..k + 4]);
  }

  lemma PopFour(s: Bytes, k: nat)
    requires k + 4 <= |s|
    ensures PopBytes(s[k..k + 4]) == PopByte(s[k]) + PopByte(s[k + 1]) + PopByte(s[k + 2]) + PopByte(s[k + 3])
  {
    hide PopByte;
    var t := s[k..k + 4];
    assert t[1..][1..] == t[2..] && t[2..][1..] == t[3..] && t[3..][1..] == [];
    assert PopBytes(t) == PopByte(t[0]) + PopBytes(t[1..]);
    assert PopBytes(t[1..]) == PopByte(t[1]) + PopBytes(t[2..]);
    assert PopBytes(t[2..]) == PopByte(t[2]) + PopBytes(t[3..]);
    assert PopBytes(t[3..]) == PopByte(t[3]) + PopBytes([]);
  }

  /** A turn adds exactly the ones of its 28 bytes. */
  lemma SevenCounts(s: Bytes, i: nat)
    requires i + 28 <= |s|
    ensures Seven(s, i) == PopBytes(s[i..i + 28])
  {
    hide Val, Swar, WordAt, PopByte, PopBytes, TopOfProduct, CountsAt;
    SumPacked(s, i, 7);
    ColumnsPop(s, i, 7);
    SumSeven(s, i);
    hide Column;
    ByteSum(Column(s, i, 7), Column(s, i + 1, 7), Column(s, i + 2, 7), Column(s, i + 3, 7));
    assert Sum(s, i, 7) < WORD;
  }

  lemma SumSeven(s: Bytes, i: nat)
    requires i + 28 <= |s|
    ensures Sum(s, i, 7) == CountsAt(s, i) + CountsAt(s, i + 4) + CountsAt(s, i + 8) + CountsAt(s, i + 12) +
                            CountsAt(s, i + 16) + CountsAt(s, i + 20) + CountsAt(s, i + 24)
  {
    hide CountsAt;
    assert Sum(s, i, 6) == Sum(s, i, 5) + CountsAt(s, i + 20);
    assert Sum(s, i, 5) == Sum(s, i, 4) + CountsAt(s, i + 16);
    assert Sum(s, i, 4) == Sum(s, i, 3) + CountsAt(s, i + 12);
    assert Sum(s, i, 3) == Sum(s, i, 2) + CountsAt(s, i + 8);
    assert Sum(s, i, 2) == Sum(s, i, 1) + CountsAt(s, i + 4);
    assert Sum(s, i, 1) == Sum(s, i, 0) + CountsAt(s, i);
  }

  // ---- the whole function ----

  predicate Aligned(address: nat, usePopcnt: bool) { if usePopcnt then address % 8 == 0 else address % 4 == 0 }

  /** Thirty-two bytes at a time, in four counters. */
  method CountQuads(s: Bytes, from: nat, counted: nat) returns (i: nat, bits: nat)
    requires from <= |s| && counted == PopBytes(s[..from])
    ensures i <= |s| && bits == PopBytes(s[..i])
  {
    hide PopBytes;
    i := from;
    var c0, c1, c2, c3 := 0, 0, 0, 0;
    while |s| - i >= 32
      invariant i <= |s| && counted + c0 + c1 + c2 + c3 == PopBytes(s[..i])
      decreases |s| - i
    {
      PopStep(s, i, i + 8);
      PopStep(s, i + 8, i + 16);
      PopStep(s, i + 16, i + 24);
      PopStep(s, i + 24, i + 32);
      c0 := c0 + PopBytes(s[i..i + 8]);
      c1 := c1 + PopBytes(s[i + 8..i + 16]);
      c2 := c2 + PopBytes(s[i + 16..i + 24]);
      c3 := c3 + PopBytes(s[i + 24..i + 32]);
      i := i + 32;
    }
    bits := counted + c0 + c1 + c2 + c3;
  }

  /** Twenty-eight bytes at a time, in seven words. */
  method CountSevens(s: Bytes, from: nat, counted: nat) returns (i: nat, bits: nat)
    requires from <= |s| && counted == PopBytes(s[..from])
    ensures i <= |s| && bits == PopBytes(s[..i])
  {
    hide PopBytes, Seven;
    i, bits := from, counted;
    while |s| - i >= 28
      invariant i <= |s| && bits == PopBytes(s[..i])
      decreases |s| - i
    {
      PopStep(s, i, i + 28);
      SevenCounts(s, i);
      bits := bits + Seven(s, i);
      i := i + 28;
    }
  }

  /**
    redisPopcount on the bytes at address `address`. The popcnt instruction on a
    64-bit word is the count of its eight bytes.
    */
  method RedisPopcount(s: Bytes, address: nat, usePopcnt: bool) returns (bits: nat)
    ensures bits == PopBytes(s)
  {
    assert PopBytes(s[..0]) == 0;
    hide PopByte, PopBytes, Seven;
    var i := 0;
    bits := 0;
    while !Aligned(address + i, usePopcnt) && i < |s|
      invariant i <= |s| && bits == PopBytes(s[..i])
      decreases |s| - i
    {
      PopOne(s, i);
      bits := bits + PopByte(s[i]);
      i := i + 1;
    }
    if usePopcnt {
      i, bits := CountQuads(s, i, bits);
    } else {
      i, bits := CountSevens(s, i, bits);
    }
    while i < |s|
      invariant i <= |s| && bits == PopBytes(s[..i])
    {
      PopOne(s, i);
      bits := bits + PopByte(s[i]);
      i := i + 1;
    }
    assert s[..i] == s;
  }
}
