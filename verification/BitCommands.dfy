/**
  BITCOUNT and BITPOS: index conversion, edge masks, and the calls that count
  or search whole bytes.
  */
module BitCommands {
  import opened Basics
  import opened Wrappers
  import opened BitString
  import opened Popcount
  import opened Bitpos

  // ---- ranges ----

  /** How an index counts: from the start, or from the end when negative, but not below 0. */
  function Index(i: int, len: nat): nat { if i >= 0 then i else if len + i < 0 then 0 else len + i }

  /** The last index of a range, not beyond the end; -1 in an empty string. */
  function LastIndex(i: int, len: nat): int { if Index(i, len) >= len then len - 1 else Index(i, len) }

  datatype Unit = InBytes | InBits

  function Length(s: Bytes, unit: Unit): nat { if unit.InBits? then 8 * |s| else |s| }

  /** The bits a range covers: from `FirstBit` up to, not including, `EndBit`. */
  function FirstBit(s: Bytes, start: int, unit: Unit): nat {
    var i := Index(start, Length(s, unit));
    if unit.InBits? then i else 8 * i
  }

  function EndBit(s: Bytes, end: int, unit: Unit): int {
    var i := LastIndex(end, Length(s, unit));
    if unit.InBits? then i + 1 else 8 * (i + 1)
  }

  /** A range as the commands keep it: whole bytes, and how many bits to leave out at the two ends. */
  datatype Span = Span(start: int, end: int, firstMask: bv8, lastMask: bv8)

  /** The conversion shared by both commands, on indexes as given. */
  method Convert(start0: int, end0: int, strlen: nat, unit: Unit) returns (r: Span)
    ensures var len := if unit.InBits? then 8 * strlen else strlen;
      var lo, hi := Index(start0, len), LastIndex(end0, len);
      if unit.InBytes? || lo > hi then r == Span(lo, hi, 0, 0)
      else r == Span(lo / 8, hi / 8, FirstMask(lo % 8), LastMask(hi % 8))
  {
    var start, end, totlen := start0, end0, strlen;
    if unit.InBits? {
      totlen := 8 * totlen;
    }
    if start < 0 {
      start := totlen + start;
    }
    if end < 0 {
      end := totlen + end;
    }
    if start < 0 {
      start := 0;
    }
    if end < 0 {
      end := 0;
    }
    if end >= totlen {
      end := totlen - 1;
    }
    r := Span(start, end, 0, 0);
    if unit.InBits? && start <= end {
      r := Span(start / 8, end / 8, FirstMask(start % 8), LastMask(end % 8));
    }
  }

  /** Counting from the end: an index -k is the index length - k, and below the string it is 0. */
  lemma FromTheEnd(s: Bytes, k: int, unit: Unit)
    requires k > 0
    ensures var len := Length(s, unit);
      && FirstBit(s, -k, unit) == FirstBit(s, if k <= len then len - k else 0, unit)
      && EndBit(s, -k, unit) == EndBit(s, if k <= len then len - k else 0, unit)
    ensures FirstBit(s, 0 - Length(s, unit), unit) == 0 && EndBit(s, -1, unit) == 8 * |s|
    ensures s != [] ==> FirstBit(s, -1, InBytes) == 8 * (|s| - 1) && FirstBit(s, -1, InBits) == 8 * |s| - 1
  {
  }

  // ---- counting ----

  /** The ones at positions [a, b). */
  function OnesIn(s: Bytes, a: int, b: int): nat
    requires 0 <= a && b <= 8 * |s|
    decreases b - a
  {
    if b <= a then 0 else OnesIn(s, a, b - 1) + Count(Bit(s, b - 1))
  }

  lemma {:induction false} OnesSplit(s: Bytes, a: int, m: int, b: int)
    requires 0 <= a <= m <= b <= 8 * |s|
    ensures OnesIn(s, a, b) == OnesIn(s, a, m) + OnesIn(s, m, b)
    decreases b
  {
    hide Bit;
    if m < b {
      OnesSplit(s, a, m, b - 1);
    }
  }

  /** The ones of a byte at positions [i, j). */
  function OnesOf(b: bv8, i: int, j: int): nat
    requires 0 <= i && j <= 8
    decreases j - i
  {
    if j <= i then 0 else OnesOf(b, i, j - 1) + Count(BitOf(b, j - 1))
  }

  lemma {:induction false} OnesInByte(s: Bytes, k: nat, i: int, j: int)
    requires k < |s| && 0 <= i <= j <= 8
    ensures OnesIn(s, 8 * k + i, 8 * k + j) == OnesOf(s[k], i, j)
    decreases j
  {
    hide BitOf;
    if i < j {
      OnesInByte(s, k, i, j - 1);
      var n := 8 * k + j - 1;
      assert n / 8 == k && n % 8 == j - 1;
    }
  }

  lemma OnesOfAll(b: bv8)
    ensures OnesOf(b, 0, 8) == PopByte(b)
  {
    hide BitOf;
    assert OnesOf(b, 0, 2) == Count(BitOf(b, 0)) + Count(BitOf(b, 1));
    assert OnesOf(b, 0, 4) == OnesOf(b, 0, 2) + Count(BitOf(b, 2)) + Count(BitOf(b, 3));
    assert OnesOf(b, 0, 6) == OnesOf(b, 0, 4) + Count(BitOf(b, 4)) + Count(BitOf(b, 5));
  }

  lemma {:induction false} OnesOfSplit(b: bv8, i: int, m: int, j: int)
    requires 0 <= i <= m <= j <= 8
    ensures OnesOf(b, i, j) == OnesOf(b, i, m) + OnesOf(b, m, j)
    decreases j
  {
    hide BitOf;
    if m < j {
      OnesOfSplit(b, i, m, j - 1);
    }
  }

  lemma {:induction false} PopIsOnes(s: Bytes, x: nat, y: nat)
    requires x <= y <= |s|
    ensures PopBytes(s[x..y]) == OnesIn(s, 8 * x, 8 * y)
    decreases y
  {
    hide PopByte, Bit, OnesIn;
    if x == y {
      OnesNone(s, 8 * x);
    } else {
      PopIsOnes(s, x, y - 1);
      assert s[x..y] == s[x..y - 1] + [s[y - 1]];
      PopAppend(s[x..y - 1], [s[y - 1]]);
      PopSingle(s[y - 1]);
      OnesSplit(s, 8 * x, 8 * (y - 1), 8 * y);
      OnesInByte(s, y - 1, 0, 8);
      OnesOfAll(s[y - 1]);
    }
  }

  lemma OnesNone(s: Bytes, a: nat)
    requires a <= 8 * |s|
    ensures OnesIn(s, a, a) == 0
  {
  }

  lemma PopSingle(b: bv8)
    ensures PopBytes([b]) == PopByte(b)
  {
    hide PopByte;
    assert [b][1..] == [];
  }

  /** Masking to the bits before `k` keeps the ones before `k`. */
  lemma {:induction false} FirstMasked(b: bv8, k: nat, j: nat)
    requires k < 8 && j <= 8
    ensures OnesOf(b & FirstMask(k), 0, j) == OnesOf(b, 0, if j < k then j else k)
    decreases j
  {
    hide BitOf, FirstMask;
    if j > 0 {
      FirstMasked(b, k, j - 1);
      AndBit(b, FirstMask(k), j - 1);
      FirstMaskBit(k, j - 1);
    }
  }

  /** Masking to the bits after `k` keeps the ones after `k`. */
  lemma {:induction false} LastMasked(b: bv8, k: nat, j: nat)
    requires k < 8 && j <= 8
    ensures OnesOf(b & LastMask(k), 0, j) == OnesOf(b, k + 1, j)
    decreases j
  {
    hide BitOf, LastMask;
    if j > 0 {
      LastMasked(b, k, j - 1);
      AndBit(b, LastMask(k), j - 1);
      LastMaskBit(k, j - 1);
    }
  }

  /** The ones of a byte that a mask keeps. */
  function Masked(b: bv8, mask: bv8): nat { PopByte(And(b, mask)) }

  function And(a: bv8, b: bv8): bv8 { a & b }

  lemma MaskedFirst(b: bv8, k: nat)
    requires k < 8
    ensures Masked(b, FirstMask(k)) == OnesOf(b, 0, k)
  {
    FirstMasked(b, k, 8);
    OnesOfAll(b & FirstMask(k));
  }

  lemma MaskedLast(b: bv8, k: nat)
    requires k < 8
    ensures Masked(b, LastMask(k)) == OnesOf(b, k + 1, 8)
  {
    LastMasked(b, k, 8);
    OnesOfAll(b & LastMask(k));
  }

  /** Whole bytes less the masked ends are the ones of the bit range. */
  lemma EdgesOff(s: Bytes, x: nat, i: nat, y: nat, j: nat)
    requires x <= y < |s| && i < 8 && j < 8 && 8 * x + i <= 8 * y + j
    ensures PopBytes(s[x..y + 1])
         == OnesIn(s, 8 * x + i, 8 * y + j + 1) + Masked(s[x], FirstMask(i)) + Masked(s[y], LastMask(j))
  {
    hide PopBytes, OnesIn, OnesOf, FirstMask, LastMask, Masked;
    PopIsOnes(s, x, y + 1);
    OnesSplit(s, 8 * x, 8 * x + i, 8 * (y + 1));
    OnesSplit(s, 8 * x + i, 8 * y + j + 1, 8 * (y + 1));
    OnesInByte(s, x, 0, i);
    OnesInByte(s, y, j + 1, 8);
    MaskedFirst(s[x], i);
    MaskedLast(s[y], j);
  }

  // ---- BITCOUNT ----

  datatype Range = Range(start: int, end: int, unit: Unit)

  /** Counts whole bytes and takes the masked bits of the first and the last off again. */
  method CountSpan(s: Bytes, span: Span, address: nat, usePopcnt: bool) returns (n: int)
    requires 0 <= span.start <= span.end < |s|
    ensures n == PopBytes(s[span.start..span.end + 1]) -
                 Masked(s[span.start], span.firstMask) - Masked(s[span.end], span.lastMask)
  {
    hide PopBytes, PopByte, And;
    n := RedisPopcount(s[span.start..span.end + 1], address + span.start, usePopcnt);
    ZeroMask(s[span.start]);
    ZeroMask(s[span.end]);
    if span.firstMask != 0 || span.lastMask != 0 {
      var first: bv8, last: bv8 := 0, 0;
      if span.firstMask != 0 {
        first := And(s[span.start], span.firstMask);
      }
      if span.lastMask != 0 {
        last := And(s[span.end], span.lastMask);
      }
      var off := RedisPopcount([first, last], 0, usePopcnt);
      PopPair(first, last);
      n := n - off;
    }
  }

  /** BITCOUNT: the ones in the range given, or in the whole string. */
  method BitCount(o: Option<Bytes>, range: Option<Range>, address: nat, usePopcnt: bool) returns (n: int)
    ensures o.None? ==> n == 0
    ensures o.Some? && range.None? ==> n == OnesIn(o.value, 0, 8 * |o.value|)
    ensures o.Some? && range.Some? ==>
      var s, r, width := o.value, range.value, if range.value.unit.InBits? then 1 else 8;
      var len := if r.unit.InBits? then 8 * |s| else |s|;
      var i := if r.start >= 0 then r.start else if r.start >= -len then len + r.start else 0;
      var j := if r.end >= 0 then r.end else if r.end >= -len then len + r.end else 0;
      n == if i > j || i >= len || (r.start < 0 && r.end < 0 && r.start > r.end) then 0
           else OnesIn(s, width * i, width * (if j < len then j + 1 else len))
  {
    hide OnesIn, FirstBit, EndBit;
    n := CountRange(o, range, address, usePopcnt);
    if o.Some? && range.Some? {
      RangeMeans(o.value, range.value.start, range.value.end, range.value.unit);
    }
  }

  /** The bits between `FirstBit` and `EndBit`, written out. */
  lemma RangeMeans(s: Bytes, start: int, end: int, unit: Unit)
    ensures var width, len := if unit.InBits? then 1 else 8, if unit.InBits? then 8 * |s| else |s|;
      var i := if start >= 0 then start else if start >= -len then len + start else 0;
      var j := if end >= 0 then end else if end >= -len then len + end else 0;
      var a, b := FirstBit(s, start, unit), EndBit(s, end, unit);
      && b <= 8 * |s| && (a >= b <==> i > j || i >= len)
      && (a < b ==> a == width * i && b == width * (if j < len then j + 1 else len))
    ensures var a, b := FirstBit(s, start, unit), EndBit(s, end, unit); a >= b ==> OnesIn(s, a, b) == 0
  {
  }

  /** The same by `FirstBit` and `EndBit`. */
  method CountRange(o: Option<Bytes>, range: Option<Range>, address: nat, usePopcnt: bool) returns (n: int)
    ensures o.None? ==> n == 0
    ensures o.Some? && range.None? ==> n == OnesIn(o.value, 0, 8 * |o.value|)
    ensures o.Some? && range.Some? ==>
      var s, r := o.value, range.value;
      n == if r.start < 0 && r.end < 0 && r.start > r.end then 0
           else OnesIn(s, FirstBit(s, r.start, r.unit), EndBit(s, r.end, r.unit))
  {
    hide PopBytes, Masked, FirstMask, LastMask;
    var s := if o.Some? then o.value else [];
    var span := Span(0, |s| - 1, 0, 0);
    if range.Some? {
      var r := range.value;
      if r.start < 0 && r.end < 0 && r.start > r.end {
        return 0;
      }
      span := Convert(r.start, r.end, |s|, r.unit);
    }
    if o.None? || span.start > span.end {
      return 0;
    }
    hide OnesIn, FirstBit, EndBit, Index, LastIndex;
    n := CountSpan(s, span, address, usePopcnt);
    if range.None? {
      WholeOnes(s);
    } else if range.value.unit.InBits? {
      BitRangeOnes(s, range.value, span);
    } else {
      ByteRangeOnes(s, range.value, span);
    }
  }

  lemma WholeOnes(s: Bytes)
    requires s != []
    ensures PopBytes(s[0..|s|]) - Masked(s[0], 0) - Masked(s[|s| - 1], 0) == OnesIn(s, 0, 8 * |s|)
  {
    hide Masked, PopBytes, OnesIn;
    NoMask(s[0]);
    NoMask(s[|s| - 1]);
    PopIsOnes(s, 0, |s|);
  }

  lemma ByteRangeOnes(s: Bytes, r: Range, span: Span)
    requires r.unit.InBytes? && span == Span(Index(r.start, |s|), LastIndex(r.end, |s|), 0, 0) && span.start <= span.end
    ensures PopBytes(s[span.start..span.end + 1]) - Masked(s[span.start], 0) - Masked(s[span.end], 0)
         == OnesIn(s, FirstBit(s, r.start, r.unit), EndBit(s, r.end, r.unit))
  {
    hide Masked, PopBytes, OnesIn;
    NoMask(s[span.start]);
    NoMask(s[span.end]);
    PopIsOnes(s, span.start, span.end + 1);
  }

  lemma BitRangeOnes(s: Bytes, r: Range, span: Span)
    requires r.unit.InBits? && Index(r.start, 8 * |s|) <= LastIndex(r.end, 8 * |s|)
    requires var lo, hi := Index(r.start, 8 * |s|), LastIndex(r.end, 8 * |s|);
      span == Span(lo / 8, hi / 8, FirstMask(lo % 8), LastMask(hi % 8))
    ensures PopBytes(s[span.start..span.end + 1]) - Masked(s[span.start], span.firstMask) - Masked(s[span.end], span.lastMask)
         == OnesIn(s, FirstBit(s, r.start, r.unit), EndBit(s, r.end, r.unit))
  {
    hide Masked, PopBytes, OnesIn, FirstMask, LastMask;
    var lo, hi := Index(r.start, 8 * |s|), LastIndex(r.end, 8 * |s|);
    EdgesOff(s, lo / 8, lo % 8, hi / 8, hi % 8);
  }

  lemma PopPair(a: bv8, b: bv8)
    ensures PopBytes([a, b]) == PopByte(a) + PopByte(b)
  {
    hide PopByte;
    var t := [a, b];
    assert t[1..] == [b];
    PopSingle(b);
  }

  lemma ZeroMask(b: bv8)
    ensures And(b, 0) == 0 && PopByte(0) == 0
  {
  }

  lemma NoMask(b: bv8)
    ensures Masked(b, 0) == 0
  {
    ZeroMask(b);
  }

  // ---- BITPOS ----

  lemma FirstSplit(s: Bytes, v: bool, a: nat, m: nat, b: nat)
    requires a <= m <= b <= 8 * |s|
    ensures First(s, v, a, b) == if First(s, v, a, m) < m then First(s, v, a, m) else First(s, v, m, b)
  {
    hide Bit;
    var f := First(s, v, a, m);
    FirstIs(s, v, a, b, if f < m then f else First(s, v, m, b));
  }

  lemma FirstPart(s: Bytes, v: bool, x: nat, y: nat)
    requires x <= y <= |s|
    ensures First(s[x..y], v, 0, 8 * (y - x)) + 8 * x == First(s, v, 8 * x, 8 * y)
  {
    hide Bit;
    var f := First(s[x..y], v, 0, 8 * (y - x));
    forall k | 8 * x <= k < 8 * y ensures Bit(s, k) == Bit(s[x..y], k - 8 * x) {
      BitOfPart(s, x, y, k - 8 * x);
    }
    FirstIs(s, v, 8 * x, 8 * y, f + 8 * x);
  }

  /** `tmp` shows the bits [i, j] of `b` and hides the others from a search for `v`. */
  ghost predicate Shows(tmp: bv8, b: bv8, i: nat, j: nat, v: bool) {
    forall k :: 0 <= k < 8 ==> (BitOf(tmp, k) == v <==> i <= k <= j && BitOf(b, k) == v)
  }

  lemma FirstInByte(b: bv8, v: bool)
    ensures var f := First([b], v, 0, 8);
      (f < 8 ==> BitOf(b, f) == v) && forall k :: 0 <= k < f ==> BitOf(b, k) != v
  {
    hide BitOf;
    var f := First([b], v, 0, 8);
    forall k | 0 <= k < 8 ensures Bit([b], k) == BitOf(b, k) {
      assert k / 8 == 0 && k % 8 == k;
    }
    hide First, Bit;
    forall k | 0 <= k < f ensures BitOf(b, k) != v {
      assert Bit([b], k) != v;
    }
  }

  lemma ByteFirstIs(s: Bytes, x: nat, i: nat, j: nat, v: bool, r: nat)
    requires x < |s| && i <= r <= j + 1 <= 8
    requires forall k :: i <= k < r ==> BitOf(s[x], k) != v
    requires r <= j ==> BitOf(s[x], r) == v
    ensures First(s, v, 8 * x + i, 8 * x + j + 1) == 8 * x + r
  {
    hide BitOf;
    forall n | 8 * x + i <= n < 8 * x + r ensures Bit(s, n) != v {
      assert n / 8 == x && n % 8 == n - 8 * x;
    }
    var n := 8 * x + r;
    assert r <= j ==> n / 8 == x && n % 8 == r;
    FirstIs(s, v, 8 * x + i, 8 * x + j + 1, 8 * x + r);
  }

  /** Searching the byte that shows [i, j] searches those bits. */
  lemma ShownFirst(s: Bytes, x: nat, i: nat, j: nat, v: bool, tmp: bv8)
    requires x < |s| && i <= j < 8 && Shows(tmp, s[x], i, j, v)
    ensures var f := First([tmp], v, 0, 8);
      && First(s, v, 8 * x + i, 8 * x + j + 1) == (if f < 8 then 8 * x + f else 8 * x + j + 1)
      && (f < 8 ==> i <= f <= j)
  {
    hide BitOf, First;
    var f := First([tmp], v, 0, 8);
    FirstInByte(tmp, v);
    ByteFirstIs(s, x, i, j, v, if f < 8 then f else j + 1);
  }

  function Or(a: bv8, b: bv8): bv8 { a | b }

  function Not(a: bv8): bv8 { !a }

  /** Hiding the masked bits: cleared in a search for ones, set in a search for zeros. */
  function Hidden(b: bv8, mask: bv8, v: bool): bv8 { if v then And(b, Not(mask)) else Or(b, mask) }

  lemma HiddenBit(b: bv8, mask: bv8, v: bool, k: nat)
    requires k < 8
    ensures BitOf(Hidden(b, mask, v), k) == v <==> !BitOf(mask, k) && BitOf(b, k) == v
  {
    hide BitOf;
    if v {
      AndBit(b, !mask, k);
      NotBit(mask, k);
    } else {
      OrBit(b, mask, k);
    }
  }

  lemma HiddenShows(b: bv8, i: nat, j: nat, v: bool)
    requires i < 8 && j < 8
    ensures Shows(Hidden(b, FirstMask(i), v), b, i, 7, v)
    ensures Shows(Hidden(b, LastMask(j), v), b, 0, j, v)
    ensures Shows(Hidden(Hidden(b, FirstMask(i), v), LastMask(j), v), b, i, j, v)
  {
    hide BitOf, FirstMask, LastMask, Hidden;
    forall k | 0 <= k < 8 ensures
      && (BitOf(Hidden(b, FirstMask(i), v), k) == v <==> i <= k <= 7 && BitOf(b, k) == v)
      && (BitOf(Hidden(b, LastMask(j), v), k) == v <==> 0 <= k <= j && BitOf(b, k) == v)
      && (BitOf(Hidden(Hidden(b, FirstMask(i), v), LastMask(j), v), k) == v <==> i <= k <= j && BitOf(b, k) == v)
    {
      FirstMaskBit(i, k);
      LastMaskBit(j, k);
      HiddenBit(b, FirstMask(i), v, k);
      HiddenBit(b, LastMask(j), v, k);
      HiddenBit(Hidden(b, FirstMask(i), v), LastMask(j), v, k);
    }
  }

  /**
    The answer up to the adjustment at the end: a position relative to byte
    `start` of `bytes` bytes that end the range; what stands for none is -1, or
    the end of those bytes in a search for zeros.
    */
  ghost predicate Answers(s: Bytes, v: bool, lo: nat, hi: nat, pos: int, start: int, bytes: int)
    requires lo <= hi < 8 * |s|
  {
    var f := First(s, v, lo, hi + 1);
    if f <= hi then 0 <= pos < 8 * bytes && 8 * start + pos == f
    else pos == (if v then -1 else 8 * bytes) && start + bytes == hi / 8 + 1
  }

  /** The bits that a span stands for. */
  ghost predicate Covers(span: Span, i: nat, j: nat) {
    i < 8 && j < 8 && span.firstMask == FirstMask(i) && span.lastMask == LastMask(j)
  }

  /** The search of a span without masked first byte: whole bytes, then a masked last byte. */
  method SearchRest(s: Bytes, x: nat, y: nat, lastMask: bv8, ghost j: nat, v: bool, address: nat)
    returns (pos: int, start: int, bytes: int)
    requires x <= y < |s| && j < 8 && lastMask == LastMask(j)
    ensures Answers(s, v, 8 * x, 8 * y + j, pos, start, bytes)
  {
    hide First, Hidden, LastMask, Shows, Answers;
    LastMaskBit(j, 0);
    start, bytes := x, y - x + 1;
    var curbytes := if lastMask != 0 then bytes - 1 else bytes;
    if curbytes > 0 {
      pos := RedisBitpos(s[start..start + curbytes], address + start, v);
      if bytes == curbytes || (pos != -1 && pos != 8 * curbytes) {
        if j == 7 {
          AnswersAll(s, v, x, y, pos);
        } else {
          AnswersBefore(s, v, x, y, j, pos);
        }
        return;
      }
      NoneInBytes(s, v, x, y, j, pos);
      start, bytes := start + curbytes, bytes - curbytes;
    }
    var tmp := Hidden(s[y], lastMask, v);
    pos := RedisBitpos([tmp], 0, v);
    AnswersLast(s, v, x, y, j, pos);
  }

  /** What redisBitpos returns on a string. */
  ghost predicate Found(s: Bytes, v: bool, pos: int) {
    var f := First(s, v, 0, 8 * |s|);
    pos == if f < 8 * |s| || !v then f else -1
  }

  lemma AnswersAll(s: Bytes, v: bool, x: nat, y: nat, pos: int)
    requires x <= y < |s| && Found(s[x..y + 1], v, pos)
    ensures Answers(s, v, 8 * x, 8 * y + 7, pos, x, y - x + 1)
  {
    hide First;
    FirstPart(s, v, x, y + 1);
  }

  lemma AnswersBefore(s: Bytes, v: bool, x: nat, y: nat, j: nat, pos: int)
    requires x < y < |s| && j < 8 && Found(s[x..y], v, pos) && pos != -1 && pos != 8 * (y - x)
    ensures Answers(s, v, 8 * x, 8 * y + j, pos, x, y - x + 1)
  {
    hide First;
    FirstPart(s, v, x, y);
    FirstSplit(s, v, 8 * x, 8 * y, 8 * y + j + 1);
  }

  lemma NoneInBytes(s: Bytes, v: bool, x: nat, y: nat, j: nat, pos: int)
    requires x < y < |s| && j < 8 && Found(s[x..y], v, pos) && (pos == -1 || pos == 8 * (y - x))
    ensures First(s, v, 8 * x, 8 * y + j + 1) == First(s, v, 8 * y, 8 * y + j + 1)
  {
    hide First;
    FirstPart(s, v, x, y);
    FirstSplit(s, v, 8 * x, 8 * y, 8 * y + j + 1);
  }

  lemma AnswersLast(s: Bytes, v: bool, x: nat, y: nat, j: nat, pos: int)
    requires x <= y < |s| && j < 8 && Found([Hidden(s[y], LastMask(j), v)], v, pos)
    requires First(s, v, 8 * x, 8 * y + j + 1) == First(s, v, 8 * y, 8 * y + j + 1)
    ensures Answers(s, v, 8 * x, 8 * y + j, pos, y, 1)
  {
    hide First, Hidden, LastMask, Shows;
    HiddenShows(s[y], 0, j, v);
    ShownFirst(s, y, 0, j, v, Hidden(s[y], LastMask(j), v));
  }

  /** The search of a span: masked first byte, whole bytes, masked last byte. */
  method Search(s: Bytes, span: Span, ghost i: nat, ghost j: nat, v: bool, address: nat)
    returns (pos: int, start: int, bytes: int)
    requires 0 <= span.start <= span.end < |s| && Covers(span, i, j) && 8 * span.start + i <= 8 * span.end + j
    ensures Answers(s, v, 8 * span.start + i, 8 * span.end + j, pos, start, bytes)
  {
    hide First, Hidden, FirstMask, LastMask, Shows, Answers;
    FirstMaskBit(i, 0);
    LastMaskBit(j, 0);
    var x, y := span.start, span.end;
    if span.firstMask == 0 {
      pos, start, bytes := SearchRest(s, x, y, span.lastMask, j, v, address);
      return;
    }
    start, bytes := x, y - x + 1;
    var tmp := Hidden(s[x], span.firstMask, v);
    if span.lastMask != 0 && bytes == 1 {
      tmp := Hidden(tmp, span.lastMask, v);
    }
    HiddenShows(s[x], i, j, v);
    assert Shows(tmp, s[x], i, if bytes == 1 then j else 7, v);
    pos := RedisBitpos([tmp], 0, v);
    if bytes == 1 {
      AnswersOne(s, v, x, i, j, tmp, pos);
      return;
    }
    if pos != -1 && pos != 8 {
      AnswersFirst(s, v, x, i, y, j, tmp, pos);
      return;
    }
    NoneInFirst(s, v, x, i, y, j, tmp, pos);
    pos, start, bytes := SearchRest(s, x + 1, y, span.lastMask, j, v, address);
    AnswersMore(s, v, x, i, y, j, pos, start, bytes);
  }

  lemma AnswersOne(s: Bytes, v: bool, x: nat, i: nat, j: nat, tmp: bv8, pos: int)
    requires x < |s| && i <= j < 8 && Shows(tmp, s[x], i, j, v) && Found([tmp], v, pos)
    ensures Answers(s, v, 8 * x + i, 8 * x + j, pos, x, 1)
  {
    hide First, Shows;
    ShownFirst(s, x, i, j, v, tmp);
  }

  lemma AnswersFirst(s: Bytes, v: bool, x: nat, i: nat, y: nat, j: nat, tmp: bv8, pos: int)
    requires x < y < |s| && i < 8 && j < 8 && Shows(tmp, s[x], i, 7, v) && Found([tmp], v, pos) && pos != -1 && pos != 8
    ensures Answers(s, v, 8 * x + i, 8 * y + j, pos, x, y - x + 1)
  {
    hide First, Shows;
    ShownFirst(s, x, i, 7, v, tmp);
    FirstSplit(s, v, 8 * x + i, 8 * x + 8, 8 * y + j + 1);
  }

  lemma NoneInFirst(s: Bytes, v: bool, x: nat, i: nat, y: nat, j: nat, tmp: bv8, pos: int)
    requires x < y < |s| && i < 8 && j < 8 && Shows(tmp, s[x], i, 7, v) && Found([tmp], v, pos) && (pos == -1 || pos == 8)
    ensures First(s, v, 8 * x + i, 8 * y + j + 1) == First(s, v, 8 * (x + 1), 8 * y + j + 1)
  {
    hide First, Shows;
    ShownFirst(s, x, i, 7, v, tmp);
    FirstSplit(s, v, 8 * x + i, 8 * x + 8, 8 * y + j + 1);
  }

  lemma AnswersMore(s: Bytes, v: bool, x: nat, i: nat, y: nat, j: nat, pos: int, start: int, bytes: int)
    requires x < y < |s| && i < 8 && j < 8 && Answers(s, v, 8 * (x + 1), 8 * y + j, pos, start, bytes)
    requires First(s, v, 8 * x + i, 8 * y + j + 1) == First(s, v, 8 * (x + 1), 8 * y + j + 1)
    ensures Answers(s, v, 8 * x + i, 8 * y + j, pos, start, bytes)
  {
    hide First;
  }

  /** The range of BITPOS: the end may be left out, but not with a unit. */
  datatype PosRange = From(start: int) | FromTo(start: int, end: int, unit: Unit)

  function PosFirst(s: Bytes, range: Option<PosRange>): nat {
    match range
    case None => 0
    case Some(From(start)) => FirstBit(s, start, InBytes)
    case Some(FromTo(start, _, unit)) => FirstBit(s, start, unit)
  }

  function PosEnd(s: Bytes, range: Option<PosRange>): int {
    match range
    case Some(FromTo(_, end, unit)) => EndBit(s, end, unit)
    case _ => 8 * |s|
  }

  /**
    BITPOS: the least position in the range with the bit wanted, or -1; with no
    explicit end a search for zeros sees the string as padded with zeros.
    */
  method BitPos(o: Option<Bytes>, v: bool, range: Option<PosRange>, address: nat) returns (pos: int)
    ensures o.None? ==> pos == if v then -1 else 0
    ensures o.Some? ==>
      var s, r := o.value, if range.None? then From(0) else range.value;
      var bits := r.FromTo? && r.unit.InBits?;
      var width, len := if bits then 1 else 8, if bits then 8 * |s| else |s|;
      var end := if r.FromTo? then r.end else len - 1;
      var i := if r.start >= 0 then r.start else if r.start >= -len then len + r.start else 0;
      var j := if end >= 0 then end else if end >= -len then len + end else 0;
      if i > j || i >= len then pos == -1
      else
        var a, b := width * i, width * (if j < len then j + 1 else len);
        if exists p :: a <= p < b && Bit(s, p) == v then
          a <= pos < b && Bit(s, pos) == v && forall p :: a <= p < pos ==> Bit(s, p) != v
        else pos == if v || r.FromTo? then -1 else b
  {
    hide First, PosFirst, PosEnd, Bit;
    pos := FindInRange(o, v, range, address);
    if o.Some? {
      PosMeans(o.value, range);
      PosBounds(o.value, range);
      if PosFirst(o.value, range) < PosEnd(o.value, range) {
        FirstMeans(o.value, v, PosFirst(o.value, range), PosEnd(o.value, range));
      }
    }
  }

  lemma PosBounds(s: Bytes, range: Option<PosRange>)
    ensures PosEnd(s, range) <= 8 * |s|
  {
  }

  /** The range of BITPOS, written out. */
  lemma PosMeans(s: Bytes, range: Option<PosRange>)
    ensures var r := if range.None? then From(0) else range.value;
      var bits := r.FromTo? && r.unit.InBits?;
      var width, len := if bits then 1 else 8, if bits then 8 * |s| else |s|;
      var end := if r.FromTo? then r.end else len - 1;
      var i := if r.start >= 0 then r.start else if r.start >= -len then len + r.start else 0;
      var j := if end >= 0 then end else if end >= -len then len + end else 0;
      var a, b := PosFirst(s, range), PosEnd(s, range);
      && (a >= b <==> i > j || i >= len)
      && (a < b ==> a == width * i && b == width * (if j < len then j + 1 else len))
  {
    var r := if range.None? then From(0) else range.value;
    if r.FromTo? {
      RangeMeans(s, r.start, r.end, r.unit);
    } else {
      RangeMeans(s, r.start, |s| - 1, InBytes);
      WholeRange(s);
    }
    hide FirstBit, EndBit;
  }

  lemma WholeRange(s: Bytes)
    ensures FirstBit(s, 0, InBytes) == 0 && EndBit(s, |s| - 1, InBytes) == 8 * |s|
  {
  }

  lemma FirstMeans(s: Bytes, v: bool, a: nat, b: nat)
    requires a <= b <= 8 * |s|
    ensures var f := First(s, v, a, b);
      && a <= f <= b && (f < b ==> Bit(s, f) == v) && (forall p :: a <= p < f ==> Bit(s, p) != v)
      && (f == b <==> !exists p :: a <= p < b && Bit(s, p) == v)
  {
    hide Bit;
  }

  /** The same by `PosFirst` and `PosEnd`. */
  method FindInRange(o: Option<Bytes>, v: bool, range: Option<PosRange>, address: nat) returns (pos: int)
    ensures o.None? ==> pos == if v then -1 else 0
    ensures o.Some? ==>
      var s := o.value;
      var a, b := PosFirst(s, range), PosEnd(s, range);
      if a >= b then pos == -1
      else
        var f := First(s, v, a, b);
        pos == if f < b then f else if v || (range.Some? && range.value.FromTo?) then -1 else b
  {
    hide First, FirstMask, LastMask;
    var s := if o.Some? then o.value else [];
    var start, end, unit, endGiven := 0, |s| - 1, InBytes, false;
    if range.Some? {
      start := range.value.start;
      if range.value.FromTo? {
        end, unit, endGiven := range.value.end, range.value.unit, true;
      }
    }
    var span := Convert(start, end, |s|, unit);
    if o.None? {
      return if v then -1 else 0;
    }
    if span.start > span.end {
      return -1;
    }
    ghost var i, j := 0, 7;
    if unit.InBits? {
      i, j := Index(start, 8 * |s|) % 8, LastIndex(end, 8 * |s|) % 8;
    }
    FirstMaskBit(0, 0);
    LastMaskBit(7, 0);
    var at, bytes;
    pos, at, bytes := Search(s, span, i, j, v, address);
    if endGiven && !v && pos == 8 * bytes {
      return -1;
    }
    if pos != -1 {
      pos := pos + 8 * at;
    }
  }
}
