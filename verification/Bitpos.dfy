/**
  redisBitpos: the first bit of a given value, found by skipping bytes until an
  aligned address, then whole words, then by walking a mask over the last word.
  */
module Bitpos {
  import opened BitString

  /** The least position in [a, b) whose bit is `v`, or `b`. */
  function First(s: Bytes, v: bool, a: nat, b: nat): (r: nat)
    requires a <= b <= 8 * |s|
    ensures a <= r <= b
    ensures forall i :: a <= i < r ==> Bit(s, i) != v
    ensures r < b ==> Bit(s, r) == v
    decreases b - a
  {
    if a == b || Bit(s, a) == v then a else First(s, v, a + 1, b)
  }

  lemma FirstIs(s: Bytes, v: bool, a: nat, b: nat, r: nat)
    requires a <= r <= b <= 8 * |s|
    requires forall i :: a <= i < r ==> Bit(s, i) != v
    requires r < b ==> Bit(s, r) == v
    ensures First(s, v, a, b) == r
  {
    hide Bit;
  }

  // ---- words ----

  function Join8(b0: bv8, b1: bv8, b2: bv8, b3: bv8, b4: bv8, b5: bv8, b6: bv8, b7: bv8): bv64 {
    (b0 as bv64 << 56) | (b1 as bv64 << 48) | (b2 as bv64 << 40) | (b3 as bv64 << 32) |
    (b4 as bv64 << 24) | (b5 as bv64 << 16) | (b6 as bv64 << 8) | (b7 as bv64)
  }

  function At(s: Bytes, i: nat): bv8 { if i < |s| then s[i] else 0 }

  /** The first eight bytes, zero padded, the first one on top. */
  function BigEndian(s: Bytes): bv64 {
    Join8(At(s, 0), At(s, 1), At(s, 2), At(s, 3), At(s, 4), At(s, 5), At(s, 6), At(s, 7))
  }

  /** A word as a little-endian processor loads it. */
  function LoadWord(s: Bytes, i: nat): bv64
    requires i + 8 <= |s|
  {
    Join8(s[i + 7], s[i + 6], s[i + 5], s[i + 4], s[i + 3], s[i + 2], s[i + 1], s[i])
  }

  const ONES: bv64 := 0xFFFF_FFFF_FFFF_FFFF
  const TOP: bv64 := 0x8000_0000_0000_0000

  /** skipval for words and for bytes. */
  function SkipWord(v: bool): bv64 { if v then 0 else ONES }
  function SkipByte(v: bool): bv8 { if v then 0 else 0xFF }

  lemma SkippedWord(b0: bv8, b1: bv8, b2: bv8, b3: bv8, b4: bv8, b5: bv8, b6: bv8, b7: bv8, v: bool)
    ensures Join8(b0, b1, b2, b3, b4, b5, b6, b7) == SkipWord(v) <==>
              b0 == b1 == b2 == b3 == b4 == b5 == b6 == b7 == SkipByte(v)
  {
  }

  lemma SkippedByte(b: bv8, v: bool)
    ensures b == SkipByte(v) <==> forall k :: 0 <= k < 8 ==> BitOf(b, k) != v
  {
    if b == SkipByte(v) {
      forall k | 0 <= k < 8 ensures BitOf(b, k) != v {
        ConstantBits(k);
      }
    } else if forall k :: 0 <= k < 8 ==> BitOf(b, k) != v {
      AllEqual(b, !v);
    }
  }

  // ---- the walking mask ----

  function Half(w: bv64): bv64 { w >> 1 }
  function Double(w: bv64): bv64 { w << 1 }
  predicate Meets(a: bv64, b: bv64) { a & b != 0 }

  /** The mask after `t` steps. */
  function MaskAt(t: nat): bv64 { if t == 0 then TOP else Half(MaskAt(t - 1)) }

  function Shifted(w: bv64, t: nat): bv64
    decreases t
  {
    if t == 0 then w else Shifted(Double(w), t - 1)
  }

  lemma HalfMeets(a: bv64, w: bv64)
    ensures Meets(Half(a), w) <==> Meets(a, Double(w))
  {
  }

  lemma {:induction false} MaskSeesShift(w: bv64, t: nat)
    ensures Meets(MaskAt(t), w) <==> Meets(TOP, Shifted(w, t))
    decreases t
  {
    hide Half, Double, Meets;
    if t > 0 {
      HalfMeets(MaskAt(t - 1), w);
      MaskSeesShift(Double(w), t - 1);
    }
  }

  function ByteUp(w: bv64): bv64 { w << 8 }

  lemma EightDoubles(w: bv64)
    ensures (((((((w << 1) << 1) << 1) << 1) << 1) << 1) << 1) << 1 == w << 8
  {
  }

  lemma TwoSteps(w: bv64, t: nat)
    requires t >= 2
    ensures Shifted(w, t) == Shifted(Double(Double(w)), t - 2)
  {
    hide Double;
    assert Shifted(Double(w), t - 1) == Shifted(Double(Double(w)), t - 2);
  }

  lemma ShiftedPast(w: bv64, t: nat)
    requires t >= 8
    ensures Shifted(w, t) == Shifted(ByteUp(w), t - 8)
  {
    EightDoubles(w);
    assert ByteUp(w) == Double(Double(Double(Double(Double(Double(Double(Double(w))))))));
    hide Double, ByteUp;
    TwoSteps(w, t);
    TwoSteps(Double(Double(w)), t - 2);
    TwoSteps(Double(Double(Double(Double(w)))), t - 4);
    TwoSteps(Double(Double(Double(Double(Double(Double(w)))))), t - 6);
  }

  lemma ByteUpJoin(b0: bv8, b1: bv8, b2: bv8, b3: bv8, b4: bv8, b5: bv8, b6: bv8, b7: bv8)
    ensures ByteUp(Join8(b0, b1, b2, b3, b4, b5, b6, b7)) == Join8(b1, b2, b3, b4, b5, b6, b7, 0)
  {
  }

  function TopByte(w: bv64): bv8 { (w >> 56) as bv8 }

  lemma TopByteJoin(b0: bv8, b1: bv8, b2: bv8, b3: bv8, b4: bv8, b5: bv8, b6: bv8, b7: bv8)
    ensures TopByte(Join8(b0, b1, b2, b3, b4, b5, b6, b7)) == b0
  {
  }

  lemma TopBit(w: bv64)
    ensures Meets(TOP, w) <==> BitOf(TopByte(w), 0)
  {
  }

  /** The bit below the top byte. */
  function NextBit(w: bv64): bv8 { ((w >> 55) & 1) as bv8 }

  lemma TopByteShift(w: bv64)
    ensures TopByte(w << 1) == (TopByte(w) << 1) | NextBit(w)
    ensures NextBit(w) <= 1
  {
  }

  lemma ByteShiftBit(b: bv8, c: bv8, k: nat)
    requires k < 7 && c <= 1
    ensures BitOf((b << 1) | c, k) <==> BitOf(b, k + 1)
  {
    match k {
      case 0 => case 1 => case 2 => case 3 => case 4 => case 5 => case 6 =>
    }
  }

  lemma TopByteDouble(w: bv64, k: nat)
    requires k < 7
    ensures BitOf(TopByte(Double(w)), k) <==> BitOf(TopByte(w), k + 1)
  {
    hide BitOf, TopByte, NextBit;
    TopByteShift(w);
    ByteShiftBit(TopByte(w), NextBit(w), k);
  }

  lemma {:induction false} ShiftedTop(w: bv64, t: nat)
    requires t < 8
    ensures Meets(TOP, Shifted(w, t)) <==> BitOf(TopByte(w), t)
    decreases t
  {
    hide Meets, BitOf, TopByte, Double;
    if t == 0 {
      TopBit(w);
    } else {
      ShiftedTop(Double(w), t - 1);
      TopByteDouble(w, t - 1);
    }
  }

  /** Step `t` of the mask tests bit `t` of the bytes. */
  lemma {:induction false} MaskTestsBit(s: Bytes, t: nat)
    requires t < 64 && |s| <= 8
    ensures Meets(TOP, Shifted(BigEndian(s), t)) <==> PadBit(s, t)
    decreases t
  {
    var w := BigEndian(s);
    if t < 8 {
      ShiftedTop(w, t);
      TopByteJoin(At(s, 0), At(s, 1), At(s, 2), At(s, 3), At(s, 4), At(s, 5), At(s, 6), At(s, 7));
      ConstantBits(t);
      hide Join8, Meets, Shifted, BitOf, TopByte;
      assert t / 8 == 0 && t % 8 == t;
    } else {
      var rest := if s == [] then s else s[1..];
      hide Join8, Meets, Shifted, ByteUp, BitOf;
      ShiftedPast(w, t);
      ByteUpJoin(At(s, 0), At(s, 1), At(s, 2), At(s, 3), At(s, 4), At(s, 5), At(s, 6), At(s, 7));
      MaskTestsBit(rest, t - 8);
      assert ByteUp(w) == BigEndian(rest);
      assert (t - 8) / 8 == t / 8 - 1 && (t - 8) % 8 == t % 8;
    }
  }

  lemma MaskRunsOut()
    ensures MaskAt(64) == 0
  {
    hide MaskAt, ByteDown;
    FirstMaskIs();
    MaskByte(0);
    MaskByte(8);
    MaskByte(16);
    MaskByte(24);
    MaskByte(32);
    MaskByte(40);
    MaskByte(48);
    MaskByte(56);
    AllShifted();
  }

  function ByteDown(w: bv64): bv64 { w >> 8 }

  lemma AllShifted()
    ensures ByteDown(ByteDown(ByteDown(ByteDown(ByteDown(ByteDown(ByteDown(ByteDown(TOP)))))))) == 0
  {
  }

  lemma FourHalves(w: bv64)
    ensures Half(Half(Half(Half(w)))) == w >> 4
  {
  }

  lemma EightHalves(w: bv64)
    ensures Half(Half(Half(Half(Half(Half(Half(Half(w)))))))) == ByteDown(w)
  {
    FourHalves(w);
    FourHalves(w >> 4);
    hide Half;
  }

  lemma MaskByte(t: nat)
    ensures MaskAt(t + 8) == ByteDown(MaskAt(t))
  {
    var w := MaskAt(t);
    EightHalves(w);
    hide Half, ByteDown;
    TwoMasks(t);
    TwoMasks(t + 2);
    TwoMasks(t + 4);
    TwoMasks(t + 6);
  }

  lemma TwoMasks(t: nat)
    ensures MaskAt(t + 2) == Half(Half(MaskAt(t)))
  {
    hide Half;
    assert MaskAt(t + 1) == Half(MaskAt(t));
  }

  // ---- loading the last word ----

  /** The word after `j` turns of the loading loop. */
  function Loaded(s: Bytes, j: nat): bv64 {
    if j == 0 then 0 else Pushed(Loaded(s, j - 1), At(s, j - 1))
  }

  function Pushed(w: bv64, b: bv8): bv64 { (w << 8) | (b as bv64) }

  function WithByte(w: bv64, b: bv8): bv64 { w | (b as bv64) }

  lemma PushEight(b0: bv8, b1: bv8, b2: bv8, b3: bv8, b4: bv8, b5: bv8, b6: bv8, b7: bv8)
    ensures Pushed(Pushed(Pushed(Pushed(Pushed(Pushed(Pushed(Pushed(0, b0), b1), b2), b3), b4), b5), b6), b7)
         == Join8(b0, b1, b2, b3, b4, b5, b6, b7)
  {
  }

  lemma LoadedAll(s: Bytes)
    ensures Loaded(s, 8) == BigEndian(s)
  {
    PushEight(At(s, 0), At(s, 1), At(s, 2), At(s, 3), At(s, 4), At(s, 5), At(s, 6), At(s, 7));
    hide Pushed, Join8;
    assert Loaded(s, 1) == Pushed(0, At(s, 0));
    assert Loaded(s, 3) == Pushed(Pushed(Loaded(s, 1), At(s, 1)), At(s, 2));
    assert Loaded(s, 5) == Pushed(Pushed(Loaded(s, 3), At(s, 3)), At(s, 4));
    assert Loaded(s, 7) == Pushed(Pushed(Loaded(s, 5), At(s, 5)), At(s, 6));
  }

  // ---- the whole function ----

  /** No bit of the first `i` bytes has value `v`. */
  ghost predicate Skipped(s: Bytes, v: bool, i: nat)
    requires i <= |s|
  {
    forall k :: 0 <= k < 8 * i ==> Bit(s, k) != v
  }

  lemma SkipOne(s: Bytes, v: bool, i: nat)
    requires i < |s| && Skipped(s, v, i) && s[i] == SkipByte(v)
    ensures Skipped(s, v, i + 1)
  {
    SkippedByte(s[i], v);
    hide BitOf;
    forall k | 0 <= k < 8 * (i + 1) ensures Bit(s, k) != v {
      if k >= 8 * i {
        assert k / 8 == i && k % 8 == k - 8 * i;
      }
    }
  }

  lemma WordBytes(s: Bytes, v: bool, i: nat)
    requires i + 8 <= |s|
    ensures LoadWord(s, i) == SkipWord(v) <==> forall j :: i <= j < i + 8 ==> s[j] == SkipByte(v)
  {
    SkippedWord(s[i + 7], s[i + 6], s[i + 5], s[i + 4], s[i + 3], s[i + 2], s[i + 1], s[i], v);
    hide Join8, SkipWord, SkipByte;
  }

  lemma {:induction false} SkipMany(s: Bytes, v: bool, i: nat, n: nat)
    requires i + n <= |s| && Skipped(s, v, i) && forall j :: i <= j < i + n ==> s[j] == SkipByte(v)
    ensures Skipped(s, v, i + n)
    decreases n
  {
    hide Skipped, SkipByte;
    if n > 0 {
      SkipMany(s, v, i, n - 1);
      SkipOne(s, v, i + n - 1);
    }
  }

  /** The next eight bytes, or what is left. */
  function Window(s: Bytes, i: nat): (w: Bytes)
    requires i <= |s|
    ensures |w| <= 8
  {
    if i + 8 <= |s| then s[i..i + 8] else s[i..]
  }

  /** A full window holds a wanted bit. */
  ghost predicate Stopped(s: Bytes, v: bool, i: nat)
    requires i <= |s|
  {
    i + 8 <= |s| ==> exists j :: i <= j < i + 8 && s[j] != SkipByte(v)
  }

  /** If no step of the mask finds the bit, there is none in the window, and the window is short. */
  lemma NoneInWindow(s: Bytes, v: bool, i: nat)
    requires i <= |s| && Stopped(s, v, i)
    requires forall k :: 0 <= k < 64 ==> PadBit(Window(s, i), k) != v
    ensures v && |s| < i + 8 && BigEndian(Window(s, i)) == 0
  {
    var w := Window(s, i);
    assert i + 8 <= |s| ==> forall j :: i <= j < i + 8 ==> s[j] == w[j - i];
    if |w| < 8 {
      assert !PadBit(w, 8 * |w|);
    }
    forall j | 0 <= j < |w| ensures w[j] == SkipByte(v) {
      forall k | 0 <= k < 8 ensures BitOf(w[j], k) != v {
        assert (8 * j + k) / 8 == j && (8 * j + k) % 8 == k;
        assert PadBit(w, 8 * j + k) == BitOf(w[j], k);
      }
      SkippedByte(w[j], v);
    }
    SkippedWord(At(w, 0), At(w, 1), At(w, 2), At(w, 3), At(w, 4), At(w, 5), At(w, 6), At(w, 7), true);
  }

  /** The first step of the mask that finds the bit finds the first one of the string, or its padded end. */
  lemma FoundAt(s: Bytes, v: bool, i: nat, t: nat)
    requires i <= |s| && Skipped(s, v, i) && t < 64
    requires PadBit(Window(s, i), t) == v && forall k :: 0 <= k < t ==> PadBit(Window(s, i), k) != v
    ensures First(s, v, 0, 8 * |s|) == 8 * i + t && (v ==> 8 * i + t < 8 * |s|)
  {
    hide Bit;
    var w := Window(s, i);
    assert w == s[i..i + |w|];
    forall k | 0 <= k < 8 * |w| ensures PadBit(w, k) == Bit(s, 8 * i + k) {
      BitOfPart(s, i, i + |w|, k);
    }
    assert t > 8 * |w| ==> !PadBit(w, 8 * |w|);
    forall k | 0 <= k < 8 * i + t ensures Bit(s, k) != v {
      if k >= 8 * i {
        assert PadBit(w, k - 8 * i) == Bit(s, 8 * i + (k - 8 * i));
      }
    }
    FirstIs(s, v, 0, 8 * |s|, 8 * i + t);
  }

  lemma NoneAtAll(s: Bytes, v: bool, i: nat)
    requires i <= |s| < i + 8 && Skipped(s, v, i) && v && BigEndian(Window(s, i)) == 0
    ensures First(s, v, 0, 8 * |s|) == 8 * |s|
  {
    var w := Window(s, i);
    SkippedWord(At(w, 0), At(w, 1), At(w, 2), At(w, 3), At(w, 4), At(w, 5), At(w, 6), At(w, 7), true);
    assert forall j :: 0 <= j < |w| ==> w[j] == At(w, j) == 0;
    assert forall j :: i <= j < |s| ==> s[j] == w[j - i];
    SkipMany(s, v, i, |s| - i);
    hide Bit;
    FirstIs(s, v, 0, 8 * |s|, 8 * |s|);
  }

  lemma NothingSkipped(s: Bytes, v: bool)
    ensures Skipped(s, v, 0)
  {
  }

  lemma ZeroWord(w: Bytes)
    requires |w| <= 8 && BigEndian(w) == 0
    ensures forall k :: 0 <= k < 64 ==> !PadBit(w, k)
  {
    SkippedWord(At(w, 0), At(w, 1), At(w, 2), At(w, 3), At(w, 4), At(w, 5), At(w, 6), At(w, 7), true);
    assert forall j :: 0 <= j < |w| ==> w[j] == At(w, j) == 0;
    forall k | 0 <= k < 64 ensures !PadBit(w, k) {
      if k < 8 * |w| {
        ConstantBits(k % 8);
      }
    }
  }

  lemma FirstMaskIs()
    ensures MaskAt(0) == TOP
  {
  }

  lemma NextMask(t: nat)
    ensures MaskAt(t + 1) == Half(MaskAt(t))
  {
  }

  /** The mask is not used up before 64 steps. */
  lemma MaskLasts(t: nat)
    requires t < 64
    ensures MaskAt(t) != 0
  {
    var full: Bytes := [0xFF, 0xFF, 0xFF, 0xFF, 0xFF, 0xFF, 0xFF, 0xFF];
    MaskSeesShift(BigEndian(full), t);
    MaskTestsBit(full, t);
    ConstantBits(t % 8);
    assert full[t / 8] == 0xFF;
  }

  /** The loop that loads up to eight bytes, the first one on top. */
  method LoadLast(s: Bytes, i: nat) returns (word: bv64)
    requires i <= |s|
    ensures word == BigEndian(Window(s, i))
  {
    hide ByteUp, WithByte, BigEndian, Loaded;
    ghost var w := Window(s, i);
    word := 0;
    LoadStart(w);
    var c := i;
    for j := 0 to 8
      invariant c == (if i + j <= |s| then i + j else |s|)
      invariant word == Loaded(w, j)
    {
      LoadStep(w, j);
      word := ByteUp(word);
      if c < |s| {
        assert s[c] == w[j];
        word := WithByte(word, s[c]);
        c := c + 1;
      }
    }
    LoadedAll(w);
  }

  lemma LoadStep(w: Bytes, j: nat)
    ensures Loaded(w, j + 1) == WithByte(ByteUp(Loaded(w, j)), At(w, j))
    ensures j >= |w| ==> Loaded(w, j + 1) == ByteUp(Loaded(w, j))
  {
  }

  lemma LoadStart(w: Bytes)
    ensures Loaded(w, 0) == 0
  {
  }

  /** The skipping loops: bytes up to an aligned address, then words. */
  method Skip(s: Bytes, address: nat, v: bool) returns (i: nat)
    ensures i <= |s| && Skipped(s, v, i) && Stopped(s, v, i)
  {
    hide Skipped, LoadWord, SkipWord, SkipByte;
    NothingSkipped(s, v);
    i := 0;
    while (address + i) % 8 != 0 && i < |s|
      invariant i <= |s| && Skipped(s, v, i)
      decreases |s| - i
    {
      if s[i] != SkipByte(v) {
        return;
      }
      SkipOne(s, v, i);
      i := i + 1;
    }
    while |s| - i >= 8
      invariant i <= |s| && Skipped(s, v, i)
      decreases |s| - i
    {
      WordBytes(s, v, i);
      if LoadWord(s, i) != SkipWord(v) {
        return;
      }
      SkipMany(s, v, i, 8);
      i := i + 8;
    }
  }

  /** redisBitpos on the bytes at address `address`. */
  method RedisBitpos(s: Bytes, address: nat, v: bool) returns (pos: int)
    ensures var f := First(s, v, 0, 8 * |s|); pos == if f < 8 * |s| || !v then f else -1
  {
    hide First, Skipped, Stopped, Window, BigEndian, PadBit, MaskAt, Half, Meets, Shifted;
    var i := Skip(s, address, v);
    ghost var w := Window(s, i);
    var word := LoadLast(s, i);
    if v && word == 0 {
      ZeroWord(w);
      NoneInWindow(s, v, i);
      NoneAtAll(s, v, i);
      return -1;
    }
    var one, t := TOP, 0;
    FirstMaskIs();
    MaskRunsOut();
    while one != 0
      invariant t <= 64 && one == MaskAt(t)
      invariant forall k :: 0 <= k < t ==> PadBit(w, k) != v
      decreases 64 - t
    {
      MaskSeesShift(word, t);
      MaskTestsBit(w, t);
      if Meets(one, word) == v {
        FoundAt(s, v, i, t);
        return 8 * i + t;
      }
      NextMask(t);
      t := t + 1;
      one := Half(one);
    }
    if t < 64 {
      MaskLasts(t);
    }
    NoneInWindow(s, v, i);
    assert false;
  }
}
