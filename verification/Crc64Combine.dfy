/**
  Joining the checksums of two adjacent blocks (crccombine.c): zero operators as
  GF(2) matrices, their squares, and the cache of operators for 2^k zero bytes.
  */
module Crc64Combine {
  import opened Crc64Spec
  import opened PowerOfTwo

  // ---- matrices ----

  /** The matrix with rows `m` applied to `v`: the sum of the rows picked by the bits of `v`. */
  function RowSum(m: seq<bv64>, v: bv64): bv64
    decreases |m|
  {
    if m == [] then 0 else Xor(Pick(Odd(v), m[0]), RowSum(m[1..], Half(v)))
  }

  function Pick(b: bool, row: bv64): bv64 { if b then row else 0 }

  /** `m` is the operator for `n` zero bits. */
  ghost predicate Represents(m: seq<bv64>, n: nat) {
    |m| == 64 && forall v: bv64 :: RowSum(m, v) == ZeroBits(n, v)
  }

  lemma {:induction false} RowSumOfZero(m: seq<bv64>)
    ensures RowSum(m, 0) == 0
    decreases |m|
  {
    if m != [] { RowSumOfZero(m[1..]); }
  }

  /** Applying a zero operator to every row applies it to the product. */
  lemma {:induction false} RowSumMapped(m: seq<bv64>, mapped: seq<bv64>, n: nat, v: bv64)
    requires |mapped| == |m|
    requires forall i :: 0 <= i < |m| ==> mapped[i] == ZeroBits(n, m[i])
    ensures RowSum(mapped, v) == ZeroBits(n, RowSum(m, v))
    decreases |m|
  {
    hide Xor, Half, Odd, ZeroBits;
    if m == [] {
      ZeroBitsZero(n);
    } else {
      RowSumMapped(m[1..], mapped[1..], n, Half(v));
      ZeroBitsLinear(n, Pick(Odd(v), m[0]), RowSum(m[1..], Half(v)));
      ZeroBitsZero(n);
    }
  }

  /** The square of an operator is the operator for twice the zeros. */
  lemma SquareRepresents(m: seq<bv64>, square: seq<bv64>, n: nat)
    requires Represents(m, n) && |square| == 64
    requires forall i :: 0 <= i < 64 ==> square[i] == RowSum(m, m[i])
    ensures Represents(square, 2 * n)
  {
    hide RowSum, ZeroBits;
    forall v: bv64
      ensures RowSum(square, v) == ZeroBits(2 * n, v)
    {
      RowSumMapped(m, square, n, v);
      ZeroBitsCompose(n, n, v);
    }
  }

  // ---- the operator for one zero bit ----

  /** A word shifted down `k` times. */
  function HalfTimes(k: nat, v: bv64): bv64 {
    if k == 0 then v else HalfTimes(k - 1, Half(v))
  }

  lemma {:induction false} HalfTimesCompose(m: nat, n: nat, v: bv64)
    ensures HalfTimes(m + n, v) == HalfTimes(n, HalfTimes(m, v))
  {
    hide Half;
    if m > 0 { HalfTimesCompose(m - 1, n, Half(v)); }
  }

  lemma HalfTimesTwo(v: bv64)
    ensures HalfTimes(2, v) == v >> 2
  {
    calc {
      HalfTimes(2, v);
      { hide Half; assert HalfTimes(1, Half(v)) == Half(Half(v)); }
      Half(Half(v));
      (v >> 1) >> 1;
      v >> 2;
    }
  }

  lemma HalfTimesFour(v: bv64)
    ensures HalfTimes(4, v) == v >> 4
  {
    hide HalfTimes;
    calc {
      HalfTimes(4, v);
      { HalfTimesCompose(2, 2, v); }
      HalfTimes(2, HalfTimes(2, v));
      { HalfTimesTwo(v); }
      HalfTimes(2, v >> 2);
      { HalfTimesTwo(v >> 2); }
      (v >> 2) >> 2;
      v >> 4;
    }
  }

  lemma HalfTimesEight(v: bv64)
    ensures HalfTimes(8, v) == v >> 8
  {
    hide HalfTimes;
    calc {
      HalfTimes(8, v);
      { HalfTimesCompose(4, 4, v); }
      HalfTimes(4, HalfTimes(4, v));
      { HalfTimesFour(v); }
      HalfTimes(4, v >> 4);
      { HalfTimesFour(v >> 4); }
      (v >> 4) >> 4;
      v >> 8;
    }
  }

  lemma HalfTimesSixteen(v: bv64)
    ensures HalfTimes(16, v) == v >> 16
  {
    hide HalfTimes;
    calc {
      HalfTimes(16, v);
      { HalfTimesCompose(8, 8, v); }
      HalfTimes(8, HalfTimes(8, v));
      { HalfTimesEight(v); }
      HalfTimes(8, v >> 8);
      { HalfTimesEight(v >> 8); }
      (v >> 8) >> 8;
      v >> 16;
    }
  }

  lemma HalfTimesThirtyTwo(v: bv64)
    ensures HalfTimes(32, v) == v >> 32
  {
    hide HalfTimes;
    calc {
      HalfTimes(32, v);
      { HalfTimesCompose(16, 16, v); }
      HalfTimes(16, HalfTimes(16, v));
      { HalfTimesSixteen(v); }
      HalfTimes(16, v >> 16);
      { HalfTimesSixteen(v >> 16); }
      (v >> 16) >> 16;
      v >> 32;
    }
  }

  lemma HalfTimesWordSize(v: bv64)
    ensures HalfTimes(64, v) == 0
  {
    hide HalfTimes;
    calc {
      HalfTimes(64, v);
      { HalfTimesCompose(32, 32, v); }
      HalfTimes(32, HalfTimes(32, v));
      { HalfTimesThirtyTwo(v); }
      HalfTimes(32, v >> 32);
      { HalfTimesThirtyTwo(v >> 32); }
      (v >> 32) >> 32;
      0;
    }
  }

  lemma DoubleLinear(a: bv64, b: bv64)
    ensures Double(Xor(a, b)) == Xor(Double(a), Double(b))
  {
    calc {
      Double(Xor(a, b));
      (a ^ b) << 1;
      (a << 1) ^ (b << 1);
      Xor(Double(a), Double(b));
    }
  }

  lemma {:induction false} RowSumDoubled(m: seq<bv64>, doubled: seq<bv64>, v: bv64)
    requires |doubled| == |m|
    requires forall i :: 0 <= i < |m| ==> doubled[i] == Double(m[i])
    ensures RowSum(doubled, v) == Double(RowSum(m, v))
    decreases |m|
  {
    assert Double(0) == 0;
    hide Xor, Odd, Half, Double;
    if m != [] {
      RowSumDoubled(m[1..], doubled[1..], Half(v));
      DoubleLinear(Pick(Odd(v), m[0]), RowSum(m[1..], Half(v)));
    }
  }

  lemma SplitLowBit(v: bv64)
    ensures (v & 1) ^ ((v >> 1) << 1) == v
  {
  }

  lemma LowBit(v: bv64)
    ensures Pick(Odd(v), 1) == v & 1
  {
  }

  lemma LowBitAndRest(v: bv64)
    ensures Xor(Pick(Odd(v), 1), Double(Half(v))) == v
  {
    LowBit(v);
    SplitLowBit(v);
    hide Odd, Pick;
  }

  /** The powers of two are the identity on the words they cover. */
  lemma {:induction false} PowersAreIdentity(m: seq<bv64>, v: bv64)
    requires m != [] ==> m[0] == 1
    requires forall i :: 0 <= i < |m| - 1 ==> m[i + 1] == Double(m[i])
    requires HalfTimes(|m|, v) == 0
    ensures RowSum(m, v) == v
    decreases |m|
  {
    hide Xor, Odd, Half, Double;
    if m != [] {
      var k := |m| - 1;
      RowSumDoubled(m[..k], m[1..], Half(v));
      PowersAreIdentity(m[..k], Half(v));
      LowBitAndRest(v);
    }
  }

  /** The starting matrix of the cache clocks the register once. */
  lemma OneZeroBit(m: seq<bv64>)
    requires |m| == 64 && m[0] == REVERSED_POLY && m[1] == 1
    requires forall i :: 1 <= i < 63 ==> m[i + 1] == Double(m[i])
    ensures Represents(m, 1)
  {
    forall v: bv64
      ensures RowSum(m, v) == ZeroBits(1, v)
    {
      OneZeroBitAt(m, v);
    }
  }

  lemma OneZeroBitAt(m: seq<bv64>, v: bv64)
    requires |m| == 64 && m[0] == REVERSED_POLY && m[1] == 1
    requires forall i :: 1 <= i < 63 ==> m[i + 1] == Double(m[i])
    ensures RowSum(m, v) == ZeroBits(1, v)
  {
    hide Xor, Odd, Half, Double;
    HalfTimesWordSize(v);
    PowersAreIdentity(m[1..], Half(v));
    XorCommutes(Pick(Odd(v), REVERSED_POLY), Half(v));
    XorZero(Half(v));
    ZeroBitsNone(ZeroBit(v));
  }

  // ---- the four-bits-at-a-time product ----

  /** The switch of `gf2_matrix_times_switch` on the four low bits of the vector. */
  function NibbleSum(nibble: bv64, r0: bv64, r1: bv64, r2: bv64, r3: bv64): bv64 {
    if nibble == 15 then Xor(Xor(Xor(r0, r1), r2), r3)
    else if nibble == 14 then Xor(Xor(r1, r2), r3)
    else if nibble == 13 then Xor(Xor(r0, r2), r3)
    else if nibble == 12 then Xor(r2, r3)
    else if nibble == 11 then Xor(Xor(r0, r1), r3)
    else if nibble == 10 then Xor(r1, r3)
    else if nibble == 9 then Xor(r0, r3)
    else if nibble == 8 then r3
    else if nibble == 7 then Xor(Xor(r0, r1), r2)
    else if nibble == 6 then Xor(r1, r2)
    else if nibble == 5 then Xor(r0, r2)
    else if nibble == 4 then r2
    else if nibble == 3 then Xor(r0, r1)
    else if nibble == 2 then r1
    else if nibble == 1 then r0
    else 0
  }

  /** The four rows picked one bit at a time. */
  function BitSum(b0: bool, b1: bool, b2: bool, b3: bool, r0: bv64, r1: bv64, r2: bv64, r3: bv64): bv64 {
    Xor(Xor(Pick(b0, r0), Pick(b1, r1)), Xor(Pick(b2, r2), Pick(b3, r3)))
  }

  function Code(b0: bool, b1: bool, b2: bool, b3: bool): bv64 {
    if b3 then
      if b2 then (if b1 then (if b0 then 15 else 14) else if b0 then 13 else 12)
      else (if b1 then (if b0 then 11 else 10) else if b0 then 9 else 8)
    else
      if b2 then (if b1 then (if b0 then 7 else 6) else if b0 then 5 else 4)
      else (if b1 then (if b0 then 3 else 2) else if b0 then 1 else 0)
  }

  lemma CodeOfNibble(v: bv64)
    ensures v & 15 == Code(Odd(v), Odd(Half(v)), Odd(Half(Half(v))), Odd(Half(Half(Half(v)))))
  {
  }

  lemma NibbleSumLow(b0: bool, b1: bool, b2: bool, r0: bv64, r1: bv64, r2: bv64, r3: bv64)
    ensures NibbleSum(Code(b0, b1, b2, false), r0, r1, r2, r3) == BitSum(b0, b1, b2, false, r0, r1, r2, r3)
  {
    hide Xor;
    XorZero(0);
    XorZero(r0);
    XorZero(r1);
    XorZero(r2);
    XorZero(Xor(r0, r1));
  }

  lemma NibbleSumHigh(b0: bool, b1: bool, b2: bool, r0: bv64, r1: bv64, r2: bv64, r3: bv64)
    ensures NibbleSum(Code(b0, b1, b2, true), r0, r1, r2, r3) == BitSum(b0, b1, b2, true, r0, r1, r2, r3)
  {
    hide Xor;
    XorZero(0);
    XorZero(r0);
    XorZero(r1);
    XorZero(r3);
    XorZero(Xor(r2, r3));
    XorAssociates(Xor(r0, r1), r2, r3);
    XorAssociates(r1, r2, r3);
    XorAssociates(r0, r2, r3);
  }

  lemma NibbleSumIsBitSum(b0: bool, b1: bool, b2: bool, b3: bool, r0: bv64, r1: bv64, r2: bv64, r3: bv64)
    ensures NibbleSum(Code(b0, b1, b2, b3), r0, r1, r2, r3) == BitSum(b0, b1, b2, b3, r0, r1, r2, r3)
  {
    hide NibbleSum, BitSum, Code;
    if b3 {
      NibbleSumHigh(b0, b1, b2, r0, r1, r2, r3);
    } else {
      NibbleSumLow(b0, b1, b2, r0, r1, r2, r3);
    }
  }

  lemma HalfTimesFourSteps(v: bv64)
    ensures HalfTimes(4, v) == Half(Half(Half(Half(v))))
  {
    hide Half;
    HalfTimesCompose(2, 2, v);
    assert HalfTimes(2, v) == HalfTimes(1, Half(v)) == Half(Half(v));
    var w := Half(Half(v));
    assert HalfTimes(2, w) == HalfTimes(1, Half(w)) == Half(Half(w));
  }

  lemma FourRows(m: seq<bv64>, v: bv64)
    requires |m| >= 4
    ensures RowSum(m, v) == Xor(NibbleSum(v & 15, m[0], m[1], m[2], m[3]), RowSum(m[4..], HalfTimes(4, v)))
  {
    CodeOfNibble(v);
    HalfTimesFourSteps(v);
    hide Xor, Odd, Half, NibbleSum, HalfTimes, Code;
    var v1 := Half(v);
    var v2 := Half(v1);
    var v3 := Half(v2);
    var rest := RowSum(m[4..], Half(v3));
    var p0, p1, p2, p3 := Pick(Odd(v), m[0]), Pick(Odd(v1), m[1]), Pick(Odd(v2), m[2]), Pick(Odd(v3), m[3]);
    assert m[1..][1..] == m[2..] && m[2..][1..] == m[3..] && m[3..][1..] == m[4..];
    assert RowSum(m[2..], v2) == Xor(p2, Xor(p3, rest));
    XorAssociates(p2, p3, rest);
    XorAssociates(p0, p1, Xor(Xor(p2, p3), rest));
    XorAssociates(Xor(p0, p1), Xor(p2, p3), rest);
    NibbleSumIsBitSum(Odd(v), Odd(v1), Odd(v2), Odd(v3), m[0], m[1], m[2], m[3]);
  }

  // ---- the cache ----

  /** Row `k` of the cache as a matrix. */
  ghost function Row(cache: array2<bv64>, k: nat): seq<bv64>
    requires cache.Length0 == 64 && cache.Length1 == 64 && k < 64
    reads cache
  {
    seq(64, i requires 0 <= i < 64 reads cache => cache[k, i])
  }

  /** Multiplies matrix `k` of the cache by a vector, four bits at a time. */
  method TimesSwitch(cache: array2<bv64>, k: nat, vec: bv64) returns (sum: bv64)
    requires cache.Length0 == 64 && cache.Length1 == 64 && k < 64
    ensures sum == RowSum(Row(cache, k), vec)
  {
    hide Xor, NibbleSum, HalfTimes, RowSum;
    ghost var m := Row(cache, k);
    sum := 0;
    var v, mat := vec, 0;
    XorZero(RowSum(m, vec));
    assert m[0..] == m;
    HalfTimesNone(vec);
    while v != 0
      invariant 0 <= mat <= 64 && mat % 4 == 0
      invariant v == HalfTimes(mat, vec)
      invariant Xor(sum, RowSum(m[mat..], v)) == RowSum(m, vec)
      decreases 64 - mat
    {
      HalfTimesWordSize(vec);
      FourRows(m[mat..], v);
      assert m[mat..][4..] == m[mat + 4..];
      HalfTimesCompose(mat, 4, vec);
      HalfTimesFour(v);
      ghost var nibble := NibbleSum(v & 15, m[mat], m[mat + 1], m[mat + 2], m[mat + 3]);
      XorAssociates(sum, nibble, RowSum(m[mat + 4..], v >> 4));
      sum := Xor(sum, NibbleSum(v & 15, cache[k, mat], cache[k, mat + 1], cache[k, mat + 2], cache[k, mat + 3]));
      v := v >> 4;
      mat := mat + 4;
    }
    RowSumOfZero(m[mat..]);
    XorZero(sum);
  }

  lemma HalfTimesNone(v: bv64)
    ensures HalfTimes(0, v) == v
  {
  }

  /** Fills matrix `square` with the square of matrix `mat`. */
  method MatrixSquare(cache: array2<bv64>, square: nat, mat: nat, ghost n: nat)
    requires cache.Length0 == 64 && cache.Length1 == 64 && square < 64 && mat < 64 && square != mat
    requires Represents(Row(cache, mat), n)
    modifies cache
    ensures Represents(Row(cache, square), 2 * n)
    ensures forall j: nat :: j < 64 && j != square ==> Row(cache, j) == old(Row(cache, j))
  {
    hide RowSum, Represents;
    ghost var m := Row(cache, mat);
    for n' := 0 to 64
      invariant forall i, j :: 0 <= i < 64 && 0 <= j < 64 && i != square ==> cache[i, j] == old(cache[i, j])
      invariant forall j :: 0 <= j < n' ==> cache[square, j] == RowSum(m, m[j])
    {
      assert Row(cache, mat) == m;
      cache[square, n'] := TimesSwitch(cache, mat, cache[mat, n']);
    }
    SquareRepresents(m, Row(cache, square), n);
    assert forall j: nat :: j < 64 && j != square ==> Row(cache, j) == old(Row(cache, j));
  }

  /** Matrix `k` of the cache is the operator for 2^k zero bytes. */
  ghost predicate CacheReady(cache: array2<bv64>)
    requires cache.Length0 == 64 && cache.Length1 == 64
    reads cache
  {
    forall k: nat :: k < 64 ==> Represents(Row(cache, k), 8 * Pow2(k))
  }

  /** The operator for one zero bit, written into matrix 1 of the cache. */
  method FirstMatrix(cache: array2<bv64>)
    requires cache.Length0 == 64 && cache.Length1 == 64
    modifies cache
    ensures Represents(Row(cache, 1), 1)
  {
    hide Represents, Double;
    cache[1, 0] := REVERSED_POLY;
    var row: bv64 := 1;
    for n := 1 to 64
      invariant cache[1, 0] == REVERSED_POLY
      invariant if n == 1 then row == 1 else cache[1, 1] == 1 && row == Double(cache[1, n - 1])
      invariant forall i :: 1 <= i < n - 1 ==> cache[1, i + 1] == Double(cache[1, i])
    {
      cache[1, n] := row;
      row := Double(row);
    }
    OneZeroBit(Row(cache, 1));
  }

  /** `init_combine_cache`: squares the one-bit operator up to the last matrix. */
  method InitCombineCache(cache: array2<bv64>)
    requires cache.Length0 == 64 && cache.Length1 == 64
    modifies cache
    ensures CacheReady(cache)
  {
    hide Represents, Row;
    FirstMatrix(cache);
    MatrixSquare(cache, 0, 1, 1);
    MatrixSquare(cache, 1, 0, 2);
    MatrixSquare(cache, 0, 1, 4);
    for k := 1 to 64
      invariant forall j: nat :: j < k ==> Represents(Row(cache, j), 8 * Pow2(j))
    {
      MatrixSquare(cache, k, k - 1, 8 * Pow2(k - 1));
    }
  }

  /** `done` zero bytes are applied, and `len` times 2^k are still to come. */
  ghost predicate Remaining(done: nat, len: nat, k: nat, len2: nat) {
    done + len * Pow2(k) == len2
  }

  lemma RemainingAdvances(done: nat, len: nat, k: nat, len2: nat)
    requires Remaining(done, len, k, len2)
    ensures len % 2 == 0 ==> Remaining(done, len / 2, k + 1, len2)
    ensures len % 2 == 1 ==> Remaining(done + Pow2(k), len / 2, k + 1, len2)
  {
    var p := Pow2(k);
    calc {
      len * p;
      (len / 2 * 2 + len % 2) * p;
      len / 2 * (2 * p) + len % 2 * p;
    }
  }

  lemma RemainingBounded(done: nat, len: nat, k: nat, len2: nat)
    requires Remaining(done, len, k, len2) && len != 0 && len2 < Pow2(64)
    ensures k != 64
  {
    hide Pow2;
    AtLeastOnce(len, Pow2(k));
  }

  lemma AtLeastOnce(len: nat, p: nat)
    requires len != 0
    ensures p <= len * p
  {
  }

  /** What the merged register means, whatever the second block was. */
  lemma JoinedMeaning(crc1: bv64, crc2: bv64, len2: nat)
    ensures forall block: seq<Byte> :: |block| == len2 && Crc(0, block) == crc2
              ==> Xor(ZeroBits(8 * len2, crc1), crc2) == Crc(crc1, block)
  {
    hide Xor, ZeroBits, Crc;
    forall block: seq<Byte> | |block| == len2 && Crc(0, block) == crc2
      ensures Xor(ZeroBits(8 * len2, crc1), crc2) == Crc(crc1, block)
    {
      CrcSplits(crc1, block);
    }
  }

  /**
    `crc64_combine`: the checksum of two adjacent blocks from the checksum of the
    first (`crc1`), that of the second from a zero start (`crc2`) and the second's length.
    */
  method Combine(cache: array2<bv64>, crc1: bv64, crc2: bv64, len2: nat) returns (r: bv64)
    requires cache.Length0 == 64 && cache.Length1 == 64
    requires cache[0, 0] == 0 || CacheReady(cache)
    requires len2 < Pow2(64)
    modifies cache
    ensures cache[0, 0] == 0 || CacheReady(cache)
    ensures old(CacheReady(cache)) ==> CacheReady(cache)
    ensures forall block: seq<Byte> :: |block| == len2 && Crc(0, block) == crc2 ==> r == Crc(crc1, block)
  {
    hide Xor, Represents, ZeroBits, Crc;
    r := crc1;
    if len2 == 0 {
      assert forall block: seq<Byte> :: |block| == len2 ==> block == [];
      CrcOfNothing(crc1);
      return;
    }
    if cache[0, 0] == 0 {
      InitCombineCache(cache);
    }
    r := ZeroBytes(cache, crc1, len2);
    r := Xor(r, crc2);
    JoinedMeaning(crc1, crc2, len2);
  }

  /** The loop of `crc64_combine`: one cached operator per set bit of the length. */
  method ZeroBytes(cache: array2<bv64>, crc: bv64, len2: nat) returns (r: bv64)
    requires cache.Length0 == 64 && cache.Length1 == 64 && CacheReady(cache)
    requires 0 < len2 < Pow2(64)
    ensures r == ZeroBits(8 * len2, crc)
  {
    r := crc;
    var len, k := len2, 0;
    ghost var done: nat := 0;
    assert Remaining(done, len, k, len2);
    hide ZeroBits, Represents, RowSum, Row, Remaining;
    ZeroBitsNone(crc);
    while true
      invariant 0 <= k < 64 && len != 0
      invariant Remaining(done, len, k, len2)
      invariant r == ZeroBits(8 * done, crc)
      decreases len
    {
      RemainingAdvances(done, len, k, len2);
      if len % 2 == 1 {
        RepresentsApplies(Row(cache, k), 8 * Pow2(k), r);
        ZeroBitsCompose(8 * done, 8 * Pow2(k), crc);
        r := TimesSwitch(cache, k, r);
        done := done + Pow2(k);
      }
      len := len / 2;
      k := k + 1;
      if len == 0 {
        break;
      }
      RemainingBounded(done, len, k, len2);
    }
    RemainingNone(done, k, len2);
  }

  lemma RemainingNone(done: nat, k: nat, len2: nat)
    requires Remaining(done, 0, k, len2)
    ensures done == len2
  {
  }

  lemma CrcOfNothing(crc: bv64)
    ensures Crc(crc, []) == crc
  {
  }

  lemma RepresentsApplies(m: seq<bv64>, n: nat, v: bv64)
    requires Represents(m, n)
    ensures RowSum(m, v) == ZeroBits(n, v)
  {
  }
}
