/**
  Strings of bytes read as strings of bits: bit 0 is the most significant bit
  of the first byte, as in SETBIT.
  */
module BitString {
  type Bytes = seq<bv8>

  /** The mask of bit `k` of a byte, counted from the most significant one. */
  function Mask(k: nat): bv8
    requires k < 8
  {
    match k
    case 0 => 0x80
    case 1 => 0x40
    case 2 => 0x20
    case 3 => 0x10
    case 4 => 0x08
    case 5 => 0x04
    case 6 => 0x02
    case 7 => 0x01
  }

  predicate BitOf(b: bv8, k: nat)
    requires k < 8
  {
    b & Mask(k) != 0
  }

  predicate Bit(s: Bytes, i: nat)
    requires i < 8 * |s|
  {
    BitOf(s[i / 8], i % 8)
  }

  /** Beyond its end a string reads as zeros. */
  predicate PadBit(s: Bytes, i: nat) { i < 8 * |s| && Bit(s, i) }

  // ---- bytes by their bits ----

  function SetBitOf(b: bv8, k: nat, v: bool): bv8
    requires k < 8
  {
    (b & !Mask(k)) | (if v then Mask(k) else 0)
  }

  lemma AndBit(a: bv8, b: bv8, k: nat)
    requires k < 8
    ensures BitOf(a & b, k) <==> BitOf(a, k) && BitOf(b, k)
  {
  }

  lemma OrBit(a: bv8, b: bv8, k: nat)
    requires k < 8
    ensures BitOf(a | b, k) <==> BitOf(a, k) || BitOf(b, k)
  {
  }

  lemma NotBit(a: bv8, k: nat)
    requires k < 8
    ensures BitOf(!a, k) <==> !BitOf(a, k)
  {
  }

  lemma ConstantBits(k: nat)
    requires k < 8
    ensures !BitOf(0, k) && BitOf(0xFF, k)
  {
  }

  lemma MaskBit(k: nat, j: nat)
    requires k < 8 && j < 8
    ensures BitOf(Mask(k), j) <==> j == k
  {
  }

  lemma SetBitOfBit(b: bv8, k: nat, v: bool, j: nat)
    requires k < 8 && j < 8
    ensures BitOf(SetBitOf(b, k, v), j) == if j == k then v else BitOf(b, j)
  {
    hide BitOf, Mask;
    ClearedBit(b, k, j);
    if v {
      OrBit(b & !Mask(k), Mask(k), j);
      MaskBit(k, j);
    } else {
      assert (b & !Mask(k)) | 0 == b & !Mask(k);
    }
  }

  lemma ClearedBit(b: bv8, k: nat, j: nat)
    requires k < 8 && j < 8
    ensures BitOf(b & !Mask(k), j) <==> j != k && BitOf(b, j)
  {
    var m := !Mask(k);
    assert BitOf(m, j) <==> j != k by {
      NotBit(Mask(k), j);
      MaskBit(k, j);
    }
    AndBit(b, m, j);
  }

  /** A byte with equal bits throughout is 0 or 0xFF. */
  lemma AllEqual(b: bv8, v: bool)
    requires forall k :: 0 <= k < 8 ==> BitOf(b, k) == v
    ensures b == if v then 0xFF else 0
  {
    assert BitOf(b, 0) == v && BitOf(b, 1) == v && BitOf(b, 2) == v && BitOf(b, 3) == v;
    assert BitOf(b, 4) == v && BitOf(b, 5) == v && BitOf(b, 6) == v && BitOf(b, 7) == v;
  }

  // ---- the masks of the range commands ----

  /** The bits of a byte before bit `k`. */
  function FirstMask(k: nat): bv8
    requires k < 8
  {
    !(((1 as bv8) << (8 - k)) - 1)
  }

  /** The bits of a byte after bit `k`. */
  function LastMask(k: nat): bv8
    requires k < 8
  {
    ((1 as bv8) << (7 - k)) - 1
  }

  lemma FirstMaskBit(k: nat, j: nat)
    requires k < 8 && j < 8
    ensures BitOf(FirstMask(k), j) <==> j < k
    ensures FirstMask(k) == 0 <==> k == 0
  {
    match k {
      case 0 => case 1 => case 2 => case 3 => case 4 => case 5 => case 6 => case 7 =>
    }
  }

  lemma LastMaskBit(k: nat, j: nat)
    requires k < 8 && j < 8
    ensures BitOf(LastMask(k), j) <==> j > k
    ensures LastMask(k) == 0 <==> k == 7
  {
    match k {
      case 0 => case 1 => case 2 => case 3 => case 4 => case 5 => case 6 => case 7 =>
    }
  }

  // ---- parts of a string ----

  lemma BitOfPart(s: Bytes, a: nat, b: nat, i: nat)
    requires a <= b <= |s| && i < 8 * (b - a)
    ensures Bit(s[a..b], i) == Bit(s, 8 * a + i)
  {
    hide BitOf;
    assert (8 * a + i) / 8 == a + i / 8 && (8 * a + i) % 8 == i % 8;
  }
}
