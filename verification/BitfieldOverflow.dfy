/**
  Overflow handling of BITFIELD: 64-bit arithmetic is written out as numbers
  modulo 2^64, and masks as low bits.
  */
module BitfieldOverflow {
  import opened PowerOfTwo

  predicate IsI64(x: int) { -TWO63 <= x < TWO63 }

  /** The int64_t with these 64 bits. */
  function ToSigned(w: int): int { if w >= TWO63 then w - TWO64 else w }

  /** int64_t arithmetic that wraps around. */
  function Wrap64(x: int): int { ToSigned(x % TWO64) }

  lemma Wrap64Exact(x: int)
    requires IsI64(x)
    ensures Wrap64(x) == x
  {
    if x >= 0 {
      ModIs(x, 0, TWO64, x);
    } else {
      ModIs(x, -1, TWO64, x + TWO64);
    }
  }

  datatype Policy = Wrap | Sat | Fail

  /** The return value of a check, and what it puts into `limit`. */
  datatype Check = Check(ret: int, limit: int)

  // ---- what the result should be ----

  /** The `n`-bit signed number with the bits of `u`. */
  function SignedOf(u: nat, n: nat): int
    requires n > 0
  {
    if u >= Pow2(n - 1) then u - Pow2(n) else u
  }

  /** The number in [-2^(n-1), 2^(n-1)) that differs from `x` by a multiple of 2^n. */
  function WrapSigned(x: int, n: nat): int
    requires n > 0
  {
    SignedOf(x % Pow2(n), n)
  }

  function MinOf(signed: bool, n: nat): int
    requires n > 0
  {
    if signed then 0 - Pow2(n - 1) else 0
  }

  function MaxOf(signed: bool, n: nat): int
    requires n > 0
  {
    if signed then Pow2(n - 1) - 1 else Pow2(n) - 1
  }

  function WrapOf(signed: bool, x: int, n: nat): int
    requires n > 0
  {
    if signed then WrapSigned(x, n) else x % Pow2(n)
  }

  predicate Fits(signed: bool, x: int, n: nat)
    requires n > 0
  {
    MinOf(signed, n) <= x <= MaxOf(signed, n)
  }

  function Clamp(signed: bool, x: int, n: nat): int
    requires n > 0
  {
    if x < MinOf(signed, n) then MinOf(signed, n) else if x > MaxOf(signed, n) then MaxOf(signed, n) else x
  }

  /** Wrapping gives the one number that fits and differs by a multiple of 2^n. */
  lemma WrapFits(signed: bool, x: int, n: nat) returns (q: int)
    requires n > 0
    ensures Fits(signed, WrapOf(signed, x, n), n)
    ensures WrapOf(signed, x, n) == x + Pow2(n) * q
  {
    assert Pow2(n) == 2 * Pow2(n - 1);
    var m, d := Pow2(n), x / Pow2(n);
    assert x == m * d + x % m;
    Distribute(m, -d, -1);
    Distribute(m, d, -d);
    q := if signed && x % m >= Pow2(n - 1) then -d + -1 else -d;
    hide Pow2;
  }

  // ---- the unsigned check ----

  function CheckUnsigned(value: int, incr: int, bits: nat, policy: Policy): Check
    requires 0 <= value < TWO64 && IsI64(incr) && 1 <= bits <= 63
  {
    var max := Pow2(bits) - 1;
    var maxincr, minincr := Wrap64(max - value), Wrap64(-value);
    var wrapped := Low((value + incr) % TWO64, bits);
    if value > max || (incr > 0 && incr > maxincr) then
      match policy
      case Wrap => Check(1, wrapped)
      case Sat => Check(1, max)
      case Fail => Check(1, 0)
    else if incr < 0 && incr < minincr then
      match policy
      case Wrap => Check(1, wrapped)
      case Sat => Check(-1, 0)
      case Fail => Check(-1, 0)
    else Check(0, 0)
  }

  lemma WidthBelow64(bits: nat)
    requires 1 <= bits <= 64
    ensures 0 < Pow2(bits - 1) <= TWO63 && Pow2(bits) == 2 * Pow2(bits - 1) <= TWO64
    ensures bits <= 63 ==> Pow2(bits) <= TWO63
  {
    BigPowers();
    PowMonotone(bits - 1, 63);
    if bits <= 63 {
      PowMonotone(bits, 63);
    }
  }

  lemma LowOfSum(x: int, bits: nat)
    requires 1 <= bits <= 64
    ensures x % TWO64 >= 0 && Low(x % TWO64, bits) == x % Pow2(bits)
  {
    BigPowers();
    LowMod(x % TWO64, bits);
    ModMod(x, bits, 64);
  }

  /** For a value in range the check finds exactly the sums that do not fit, and the limit asked for. */
  lemma UnsignedCheck(value: int, incr: int, bits: nat, policy: Policy)
    requires 1 <= bits <= 63 && Fits(false, value, bits) && IsI64(incr)
    ensures value < TWO64
    ensures var c := CheckUnsigned(value, incr, bits, policy);
      && (c.ret == 0 <==> Fits(false, value + incr, bits))
      && (c.ret != 0 && policy.Wrap? ==> c.limit == WrapOf(false, value + incr, bits))
      && (c.ret != 0 && policy.Sat? ==> c.limit == Clamp(false, value + incr, bits))
  {
    WidthBelow64(bits);
    LowOfSum(value + incr, bits);
    hide Pow2, Low;
    Wrap64Exact(Pow2(bits) - 1 - value);
    Wrap64Exact(-value);
    hide Wrap64;
  }

  /** A value out of range, as SET may have it, is reduced or replaced by the maximum. */
  lemma UnsignedSetCheck(value: int, bits: nat, policy: Policy)
    requires 1 <= bits <= 63 && 0 <= value < TWO64
    ensures var c := CheckUnsigned(value, 0, bits, policy);
      && (c.ret == 0 <==> Fits(false, value, bits))
      && (c.ret != 0 && policy.Wrap? ==> c.limit == WrapOf(false, value, bits))
      && (c.ret != 0 && policy.Sat? ==> c.limit == Clamp(false, value, bits))
  {
    WidthBelow64(bits);
    LowOfSum(value, bits);
    hide Pow2, Low, Wrap64;
  }

  // ---- the signed check ----

  /** c & msb decides whether the bits above are set or cleared. */
  function WrapWord(c: nat, bits: nat): int
    requires 1 <= bits <= 64
  {
    if bits == 64 then c
    else if TestBit(c, bits - 1) then TWO64 - Pow2(bits) + Low(c, bits)
    else Low(c, bits)
  }

  function MaxSigned(bits: nat): int
    requires 1 <= bits <= 64
  {
    if bits == 64 then TWO63 - 1 else Pow2(bits - 1) - 1
  }

  predicate SignedOver(value: int, incr: int, bits: nat)
    requires 1 <= bits <= 64
  {
    var max := MaxSigned(bits);
    var maxincr := Wrap64(max - value);
    value > max || (bits != 64 && incr > maxincr) || (value >= 0 && incr > 0 && incr > maxincr)
  }

  predicate SignedUnder(value: int, incr: int, bits: nat)
    requires 1 <= bits <= 64
  {
    var min := -MaxSigned(bits) - 1;
    var minincr := Wrap64(min - value);
    value < min || (bits != 64 && incr < minincr) || (value < 0 && incr < 0 && incr < minincr)
  }

  function CheckSigned(value: int, incr: int, bits: nat, policy: Policy): Check
    requires IsI64(value) && IsI64(incr) && 1 <= bits <= 64
  {
    var max := MaxSigned(bits);
    var wrapped := ToSigned(WrapWord((value + incr) % TWO64, bits));
    if SignedOver(value, incr, bits) then
      match policy
      case Wrap => Check(1, wrapped)
      case Sat => Check(1, max)
      case Fail => Check(1, 0)
    else if SignedUnder(value, incr, bits) then
      match policy
      case Wrap => Check(1, wrapped)
      case Sat => Check(-1, -max - 1)
      case Fail => Check(-1, 0)
    else Check(0, 0)
  }

  lemma OverUnder(value: int, incr: int, bits: nat)
    requires 1 <= bits <= 64 && Fits(true, value, bits) && IsI64(incr)
    ensures MaxSigned(bits) == MaxOf(true, bits)
    ensures SignedOver(value, incr, bits) <==> value + incr > MaxOf(true, bits)
    ensures SignedUnder(value, incr, bits) <==> value + incr < MinOf(true, bits)
  {
    BigPowers();
    WidthBelow64(bits);
    hide Pow2, Wrap64, SignedOver, SignedUnder;
    OverExact(value, incr, bits);
    UnderExact(value, incr, bits);
  }

  lemma OverExact(value: int, incr: int, bits: nat)
    requires 1 <= bits <= 64 && Fits(true, value, bits) && IsI64(incr)
    ensures SignedOver(value, incr, bits) <==> value + incr > MaxOf(true, bits)
  {
    BigPowers();
    WidthBelow64(bits);
    hide Pow2, Wrap64;
    if bits < 64 || value >= 0 {
      Wrap64Exact(Pow2(bits - 1) - 1 - value);
    }
  }

  lemma UnderExact(value: int, incr: int, bits: nat)
    requires 1 <= bits <= 64 && Fits(true, value, bits) && IsI64(incr)
    ensures SignedUnder(value, incr, bits) <==> value + incr < MinOf(true, bits)
  {
    BigPowers();
    WidthBelow64(bits);
    hide Pow2, Wrap64;
    if bits < 64 || value < 0 {
      Wrap64Exact(-(Pow2(bits - 1) as int) - value);
    }
  }

  lemma {:induction false} ShiftHalf(v: nat, k: nat)
    ensures Shift(v, k + 1) == Shift(v / 2, k)
    decreases k
  {
    if k > 0 {
      ShiftHalf(v, k - 1);
    }
  }

  lemma {:induction false} TestBitLow(v: nat, n: nat, k: nat)
    requires k < n
    ensures TestBit(v, k) == TestBit(Low(v, n), k)
    decreases k
  {
    var l := Low(v, n);
    assert l / 2 == Low(v / 2, n - 1) && l % 2 == v % 2;
    if k > 0 {
      TestBitLow(v / 2, n - 1, k - 1);
      ShiftHalf(v, k - 1);
      ShiftHalf(l, k - 1);
    }
  }

  /** Setting or clearing the upper bits makes the word the wrapped number. */
  lemma WrapWordIs(x: int, bits: nat)
    requires 1 <= bits <= 64
    ensures x % TWO64 >= 0 && ToSigned(WrapWord(x % TWO64, bits)) == WrapSigned(x, bits)
  {
    BigPowers();
    WidthBelow64(bits);
    LowOfSum(x, bits);
    var c := x % TWO64;
    if bits < 64 {
      TestBitLow(c, bits, bits - 1);
      TopBitIs(Low(c, bits), bits);
    }
    hide Pow2, Low, TestBit;
  }

  /** For a value in range the check finds exactly the sums that do not fit, and the limit asked for. */
  lemma SignedCheck(value: int, incr: int, bits: nat, policy: Policy)
    requires 1 <= bits <= 64 && Fits(true, value, bits) && IsI64(incr)
    ensures IsI64(value)
    ensures var c := CheckSigned(value, incr, bits, policy);
      && (c.ret == 0 <==> Fits(true, value + incr, bits))
      && (c.ret != 0 && policy.Wrap? ==> c.limit == WrapOf(true, value + incr, bits))
      && (c.ret != 0 && policy.Sat? ==> c.limit == Clamp(true, value + incr, bits))
  {
    BigPowers();
    WidthBelow64(bits);
    WrapWordIs(value + incr, bits);
    OverUnder(value, incr, bits);
    hide Pow2, WrapWord, ToSigned, WrapSigned, MaxSigned, SignedOver, SignedUnder;
  }

  /** Far below the range the distance to the maximum no longer fits, and the check answers overflow. */
  predicate FarBelow(value: int, bits: nat)
    requires 1 <= bits <= 64
  {
    bits != 64 && value < Pow2(bits - 1) - TWO63
  }

  /** A value out of range, as SET may have it: the check is right, except for the limit of a value far below. */
  lemma SignedSetCheck(value: int, bits: nat, policy: Policy)
    requires 1 <= bits <= 64 && IsI64(value)
    ensures var c := CheckSigned(value, 0, bits, policy);
      && (c.ret == 0 <==> Fits(true, value, bits))
      && (c.ret != 0 && policy.Wrap? ==> c.limit == WrapOf(true, value, bits))
      && (c.ret != 0 && policy.Sat? ==> c.limit == if FarBelow(value, bits) then MaxOf(true, bits) else Clamp(true, value, bits))
  {
    BigPowers();
    WidthBelow64(bits);
    WrapWordIs(value, bits);
    SetOver(value, bits);
    SetUnder(value, bits);
    hide Pow2, WrapWord, WrapSigned, ToSigned, SignedOver, SignedUnder;
  }

  lemma SetOver(value: int, bits: nat)
    requires 1 <= bits <= 64 && IsI64(value)
    ensures SignedOver(value, 0, bits) <==> value > MaxOf(true, bits) || FarBelow(value, bits)
  {
    BigPowers();
    WidthBelow64(bits);
    hide Pow2;
    var d := Pow2(bits - 1) - 1 - value;
    if FarBelow(value, bits) {
      ModIs(d, 0, TWO64, d);
    } else if bits < 64 {
      hide Wrap64;
      Wrap64Exact(d);
    }
  }

  lemma SetUnder(value: int, bits: nat)
    requires 1 <= bits <= 64 && IsI64(value)
    ensures value <= MaxOf(true, bits) ==> (SignedUnder(value, 0, bits) <==> value < MinOf(true, bits))
  {
    BigPowers();
    WidthBelow64(bits);
    hide Pow2, Wrap64;
    if bits < 64 && Fits(true, value, bits) {
      Wrap64Exact(-(Pow2(bits - 1) as int) - value);
    }
  }

  /** Saturating SET stores the nearest number exactly when the value is not far below the range. */
  lemma SaturatingSetIff(value: int, bits: nat)
    requires 1 <= bits <= 64 && IsI64(value) && !Fits(true, value, bits)
    ensures CheckSigned(value, 0, bits, Sat).limit == Clamp(true, value, bits) <==> !FarBelow(value, bits)
  {
    WidthBelow64(bits);
    SignedSetCheck(value, bits, Sat);
    hide Pow2, CheckSigned;
  }

  /** The least int64_t saturates to 127 in eight bits. */
  lemma LeastSaturatesUp()
    ensures CheckSigned(-TWO63, 0, 8, Sat) == Check(1, 127)
  {
    SignedSetCheck(-TWO63, 8, Sat);
    assert Pow2(4) == 16 && Pow2(7) == 128;
  }
}
