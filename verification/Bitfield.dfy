/**
  BITFIELD: reading and writing integers of any width at any bit offset, and
  the operations GET, SET and INCRBY.
  */
module Bitfield {
  import opened Basics
  import opened Wrappers
  import opened BitString
  import opened Popcount
  import opened PowerOfTwo
  import opened BitfieldOverflow

  // ---- fields ----

  /** The number in the `n` bits from `offset` on, most significant first; zeros beyond the end. */
  function Field(s: Bytes, offset: nat, n: nat): (r: nat)
    ensures r < Pow2(n)
  {
    if n == 0 then 0 else 2 * Field(s, offset, n - 1) + Count(PadBit(s, offset + n - 1))
  }

  function SetBit(s: Bytes, i: nat, v: bool): Bytes
    requires i < 8 * |s|
  {
    s[i / 8 := SetBitOf(s[i / 8], i % 8, v)]
  }

  /** The string with the low `n` bits of `value` in the field. */
  function WriteField(s: Bytes, offset: nat, n: nat, value: nat): (r: Bytes)
    requires offset + n <= 8 * |s|
    ensures |r| == |s|
  {
    if n == 0 then s
    else SetBit(WriteField(s, offset, n - 1, value / 2), offset + n - 1, value % 2 == 1)
  }

  lemma SetBitAt(s: Bytes, i: nat, v: bool, k: nat)
    requires i < 8 * |s| && k < 8 * |s|
    ensures Bit(SetBit(s, i, v), k) == if k == i then v else Bit(s, k)
  {
    hide BitOf, SetBitOf;
    if k / 8 == i / 8 {
      SetBitOfBit(s[i / 8], i % 8, v, k % 8);
    }
  }

  /** Writing a field leaves every other bit alone. */
  lemma {:induction false} WriteFrame(s: Bytes, offset: nat, n: nat, value: nat, k: nat)
    requires offset + n <= 8 * |s| && k < 8 * |s| && !(offset <= k < offset + n)
    ensures Bit(WriteField(s, offset, n, value), k) == Bit(s, k)
    decreases n
  {
    hide Bit, SetBit;
    if n > 0 {
      WriteFrame(s, offset, n - 1, value / 2, k);
      SetBitAt(WriteField(s, offset, n - 1, value / 2), offset + n - 1, value % 2 == 1, k);
    }
  }

  lemma {:induction false} FieldSame(s: Bytes, t: Bytes, offset: nat, n: nat)
    requires forall i :: offset <= i < offset + n ==> PadBit(s, i) == PadBit(t, i)
    ensures Field(s, offset, n) == Field(t, offset, n)
    decreases n
  {
    hide PadBit;
    if n > 0 {
      FieldSame(s, t, offset, n - 1);
    }
  }

  /** What is written is read back. */
  lemma {:induction false} WriteRead(s: Bytes, offset: nat, n: nat, value: nat)
    requires offset + n <= 8 * |s|
    ensures Field(WriteField(s, offset, n, value), offset, n) == Low(value, n)
    decreases n
  {
    hide Bit, SetBit;
    if n > 0 {
      WriteRead(s, offset, n - 1, value / 2);
      var t, last := WriteField(s, offset, n - 1, value / 2), offset + n - 1;
      var u := SetBit(t, last, value % 2 == 1);
      assert |u| == |s| by { SetBitSize(t, last, value % 2 == 1); }
      forall i | offset <= i < last ensures PadBit(u, i) == PadBit(t, i) {
        SetBitAt(t, last, value % 2 == 1, i);
      }
      FieldSame(u, t, offset, n - 1);
      SetBitAt(t, last, value % 2 == 1, last);
    }
  }

  lemma SetBitSize(s: Bytes, i: nat, v: bool)
    requires i < 8 * |s|
    ensures |SetBit(s, i, v)| == |s|
  {
  }

  /** Only bits of the field change, and the field becomes the low bits of the value. */
  ghost predicate Wrote(s: Bytes, t: Bytes, offset: nat, n: nat, value: int) {
    && |t| == |s| && 0 <= value < Pow2(n) && Field(t, offset, n) == value
    && forall k :: 0 <= k < 8 * |s| && !(offset <= k < offset + n) ==> Bit(t, k) == Bit(s, k)
  }

  lemma WriteWrote(s: Bytes, offset: nat, n: nat, value: nat)
    requires offset + n <= 8 * |s|
    ensures Wrote(s, WriteField(s, offset, n, value), offset, n, value % Pow2(n))
  {
    hide Bit, Field, WriteField;
    WriteRead(s, offset, n, value);
    LowMod(value, n);
    forall k | 0 <= k < 8 * |s| && !(offset <= k < offset + n)
      ensures Bit(WriteField(s, offset, n, value), k) == Bit(s, k)
    {
      WriteFrame(s, offset, n, value, k);
    }
  }

  // ---- the string object ----

  /** The value of a field as the reply shows it. */
  function Value(s: Bytes, offset: nat, n: nat, signed: bool): int
    requires n > 0
  {
    if signed then SignedOf(Field(s, offset, n), n) else Field(s, offset, n)
  }

  /** What INCRBY makes of the exact sum: itself, or what the policy says. */
  function Settled(signed: bool, sum: int, n: nat, policy: Policy): Option<int>
    requires n > 0
  {
    if Fits(signed, sum, n) then Some(sum)
    else
      match policy
      case Wrap => Some(WrapOf(signed, sum, n))
      case Sat => Some(Clamp(signed, sum, n))
      case Fail => None
  }

  predicate Width(signed: bool, n: nat) { 1 <= n <= if signed then 64 else 63 }

  /** What SET stores: unsigned fields take the value modulo 2^64, and saturation is wrong far below the range. */
  function SetTo(signed: bool, x: int, n: nat, policy: Policy): Option<int>
    requires Width(signed, n)
  {
    if !signed then Settled(false, x % TWO64, n, policy)
    else if policy.Sat? && FarBelow(x, n) then Some(MaxOf(true, n))
    else Settled(true, x, n, policy)
  }

  datatype Action = Get | Set(value: int) | IncrBy(incr: int)

  datatype Op = Op(offset: nat, bits: nat, signed: bool, policy: Policy, action: Action)

  predicate OpOk(op: Op) {
    && Width(op.signed, op.bits)
    && (op.action.Set? ==> IsI64(op.action.value)) && (op.action.IncrBy? ==> IsI64(op.action.incr))
  }

  predicate Reaches(s: Bytes, op: Op) { op.action.Get? || op.offset + op.bits <= 8 * |s| }

  /** The number an operation stores, if any. */
  function Stored(s: Bytes, op: Op): Option<int>
    requires OpOk(op)
  {
    match op.action
    case Get => None
    case Set(x) => SetTo(op.signed, x, op.bits, op.policy)
    case IncrBy(incr) => Settled(op.signed, Value(s, op.offset, op.bits, op.signed) + incr, op.bits, op.policy)
  }

  function Reply(s: Bytes, op: Op): Option<int>
    requires OpOk(op)
  {
    match op.action
    case Get => Some(Value(s, op.offset, op.bits, op.signed))
    case Set(_) => if Stored(s, op).None? then None else Some(Value(s, op.offset, op.bits, op.signed))
    case IncrBy(_) => Stored(s, op)
  }

  function After(s: Bytes, op: Op): (t: Bytes)
    requires OpOk(op) && Reaches(s, op)
    ensures |t| == |s|
  {
    if Stored(s, op).None? then s
    else WriteField(s, op.offset, op.bits, Stored(s, op).value % TWO64)
  }

  /** The first `n` bytes of the buffer are those from `byte` on, the others zero. */
  ghost predicate Copied(s: Bytes, buf: Bytes, byte: nat, n: int) {
    && |buf| == 9
    && (forall k {:trigger buf[k]} :: 0 <= k < n && k < 9 ==> byte + k < |s| && buf[k] == s[byte + k])
    && (forall k :: n <= k < 9 && 0 <= k ==> buf[k] == 0)
  }

  class Bitmap {
    var bytes: Bytes

    constructor (s: Bytes)
      ensures bytes == s
    {
      bytes := s;
    }

    /** setUnsignedBitfield */
    method SetUnsigned(offset: nat, bits: nat, value: nat)
      requires offset + bits <= 8 * |bytes|
      modifies this
      ensures bytes == WriteField(old(bytes), offset, bits, value)
    {
      hide SetBitOf;
      ghost var s := bytes;
      for j := 0 to bits
        invariant |bytes| == |s|
        invariant bytes == WriteField(s, offset, j, Shift(value, bits - j))
      {
        var bitval := TestBit(value, bits - 1 - j);
        var at := offset + j;
        assert Shift(value, bits - j) == Shift(value, bits - 1 - j) / 2;
        bytes := bytes[at / 8 := SetBitOf(bytes[at / 8], at % 8, bitval)];
      }
    }

    /** getUnsignedBitfield */
    method GetUnsigned(offset: nat, bits: nat) returns (value: nat)
      requires offset + bits <= 8 * |bytes|
      ensures value == Field(bytes, offset, bits)
    {
      value := 0;
      for j := 0 to bits
        invariant value == Field(bytes, offset, j)
      {
        var at := offset + j;
        value := 2 * value + Count(BitOf(bytes[at / 8], at % 8));
      }
    }

    /** getSignedBitfield: the top bit of the field is spread over the bits above it. */
    method GetSigned(offset: nat, bits: nat) returns (value: int)
      requires offset + bits <= 8 * |bytes| && Width(true, bits)
      ensures value == SignedOf(Field(bytes, offset, bits), bits)
    {
      hide Field;
      var u := GetUnsigned(offset, bits);
      BigPowers();
      WidthBelow64(bits);
      TopBitIs(u, bits);
      hide Pow2, TestBit;
      if bits < 64 && TestBit(u, bits - 1) {
        u := u + (TWO64 - Pow2(bits));
      }
      value := ToSigned(u);
    }

    /** The sum of INCRBY and its check. */
    method Sum(op: Op, incr: int) returns (newval: int, failed: bool)
      requires OpOk(op) && op.action == IncrBy(incr) && Reaches(bytes, op)
      ensures Stored(bytes, op) == if failed then None else Some(newval)
    {
      hide Field, Settled;
      var c;
      if op.signed {
        var oldval := GetSigned(op.offset, op.bits);
        SignedRange(oldval, Field(bytes, op.offset, op.bits), op.bits);
        SignedCheck(oldval, incr, op.bits, op.policy);
        c := CheckSigned(oldval, incr, op.bits, op.policy);
        newval := if c.ret != 0 then c.limit else Wrap64(oldval + incr);
        SumIs(true, oldval, incr, op.bits, op.policy, c, newval);
      } else {
        var oldval := GetUnsigned(op.offset, op.bits);
        WidthBelow64(op.bits);
        UnsignedCheck(oldval, incr, op.bits, op.policy);
        c := CheckUnsigned(oldval, incr, op.bits, op.policy);
        newval := if c.ret != 0 then c.limit else (oldval + incr) % TWO64;
        SumIs(false, oldval, incr, op.bits, op.policy, c, newval);
      }
      failed := c.ret != 0 && op.policy.Fail?;
    }

    /** The value in the string itself. */
    method Read(op: Op) returns (value: int)
      requires OpOk(op) && !op.action.Get? && Reaches(bytes, op)
      ensures value == Value(bytes, op.offset, op.bits, op.signed)
    {
      if op.signed {
        value := GetSigned(op.offset, op.bits);
      } else {
        value := GetUnsigned(op.offset, op.bits);
      }
    }

    /** The value of SET and its check. */
    method NewValue(op: Op, x: int) returns (newval: int, failed: bool)
      requires OpOk(op) && op.action == Set(x)
      ensures Stored(bytes, op) == if failed then None else Some(newval)
    {
      hide Clamp, WrapOf, MaxOf, MinOf;
      var c;
      if op.signed {
        newval := x;
        SignedSetCheck(x, op.bits, op.policy);
        FarBelowUnfit(x, op.bits);
        c := CheckSigned(newval, 0, op.bits, op.policy);
      } else {
        newval := x % TWO64;
        UnsignedSetCheck(newval, op.bits, op.policy);
        c := CheckUnsigned(newval, 0, op.bits, op.policy);
      }
      hide CheckSigned, CheckUnsigned, Fits, FarBelow;
      if c.ret != 0 {
        newval := c.limit;
      }
      failed := c.ret != 0 && op.policy.Fail?;
    }

    /** GET: the bits are copied to a buffer of nine bytes, so that none is read beyond the end. */
    method Get(offset: nat, bits: nat, signed: bool) returns (value: int)
      requires Width(signed, bits)
      ensures value == Value(bytes, offset, bits, signed)
    {
      hide Field;
      var buf: Bytes := [0, 0, 0, 0, 0, 0, 0, 0, 0];
      var byte := offset / 8;
      var i := 0;
      while i < 9 && i + byte < |bytes|
        invariant 0 <= i <= 9 && Copied(bytes, buf, byte, i)
      {
        buf := buf[i := bytes[i + byte]];
        i := i + 1;
      }
      BufferField(bytes, buf, byte, i, offset, bits);
      var local := new Bitmap(buf);
      if signed {
        value := local.GetSigned(offset - 8 * byte, bits);
      } else {
        value := local.GetUnsigned(offset - 8 * byte, bits);
      }
    }

    /**
      One operation of the list. GET and SET reply what was in the field, INCRBY what is in it
      then; the field gets the number asked for if it fits, and else what the policy says.
      */
    method Execute(op: Op) returns (reply: Option<int>)
      requires OpOk(op) && Reaches(bytes, op)
      modifies this
      ensures bytes == After(old(bytes), op) && reply == Reply(old(bytes), op)
      ensures |bytes| == |old(bytes)| && forall k :: 0 <= k < 8 * |old(bytes)| && !(op.offset <= k < op.offset + op.bits) ==> Bit(bytes, k) == Bit(old(bytes), k)
      ensures op.action.Get? ==> bytes == old(bytes) && reply == Some(Value(old(bytes), op.offset, op.bits, op.signed))
      ensures !op.action.Get? ==>
        var n, was, now := op.bits, Value(old(bytes), op.offset, op.bits, op.signed), Value(bytes, op.offset, op.bits, op.signed);
        var lo, hi := if op.signed then 0 - Pow2(n - 1) else 0, if op.signed then Pow2(n - 1) - 1 else Pow2(n) - 1;
        var want := if op.action.IncrBy? then was + op.action.incr else if op.signed then op.action.value else op.action.value % TWO64;
        && (reply == None <==> op.policy.Fail? && !(lo <= want <= hi))
        && (reply == None ==> bytes == old(bytes))
        && (reply != None ==>
             && reply == Some(if op.action.Set? then was else now)
             && lo <= now <= hi && (lo <= want <= hi ==> now == want)
             && (op.policy.Wrap? ==> (now - want) % Pow2(n) == 0)
             && (op.policy.Sat? && want > hi ==> now == hi)
             && (op.policy.Sat? && want < lo ==> now == if op.action.Set? && n != 64 && want < Pow2(n - 1) - TWO63 then hi else lo))
    {
      hide Value, Stored, WriteField, After, Reply, Bit;
      reply := Perform(op);
      OperationMeans(old(bytes), op);
    }

    /** The branches for the three operations. */
    method Perform(op: Op) returns (reply: Option<int>)
      requires OpOk(op) && Reaches(bytes, op)
      modifies this
      ensures bytes == After(old(bytes), op) && reply == Reply(old(bytes), op)
    {
      hide Value, Stored, WriteField;
      var newval, failed;
      match op.action {
        case Get =>
          var value := Get(op.offset, op.bits, op.signed);
          GetStoresNothing(bytes, op);
          return Some(value);
        case IncrBy(incr) =>
          newval, failed := Sum(op, incr);
          reply := Some(newval);
        case Set(x) =>
          var oldval := Read(op);
          newval, failed := NewValue(op, x);
          reply := Some(oldval);
      }
      if failed {
        return None;
      }
      SetUnsigned(op.offset, op.bits, newval % TWO64);
    }

    /**
      BITFIELD: the string grows to hold every bit written, and no further; then the operations
      run in order, each on what the one before left.
      */
    method RunAll(ops: seq<Op>) returns (replies: seq<Option<int>>, ghost states: seq<Bytes>)
      requires forall i :: 0 <= i < |ops| ==> OpOk(ops[i])
      modifies this
      ensures |states| == |ops| + 1 && |replies| == |ops| && states[|ops|] == bytes
      ensures forall i :: 0 <= i < |ops| ==>
        Reaches(states[i], ops[i]) && states[i + 1] == After(states[i], ops[i]) && replies[i] == Reply(states[i], ops[i])
      ensures |states[0]| >= |old(bytes)| && forall k :: 0 <= k < 8 * |states[0]| ==> Bit(states[0], k) == PadBit(old(bytes), k)
      ensures |states[0]| > |old(bytes)| ==>
        exists i :: 0 <= i < |ops| && !ops[i].action.Get? && ops[i].offset + ops[i].bits > 8 * (|states[0]| - 1)
    {
      hide After, Reply, Reaches, Bit;
      var last := Farthest(ops);
      if last > 0 && (last - 1) / 8 + 1 > |bytes| {
        bytes := bytes + Zeros((last - 1) / 8 + 1 - |bytes|);
      }
      ghost var start := bytes;
      assert start == Roomy(old(bytes), ops);
      RoomBits(old(bytes), ops);
      replies, states := [], [bytes];
      for i := 0 to |ops|
        invariant |states| == i + 1 && |replies| == i && states[0] == start && states[i] == bytes && |bytes| == |start|
        invariant forall j :: 0 <= j < i ==>
          Reaches(states[j], ops[j]) && states[j + 1] == After(states[j], ops[j]) && replies[j] == Reply(states[j], ops[j])
      {
        RoomReaches(old(bytes), ops, i, bytes);
        var reply := Execute(ops[i]);
        replies, states := replies + [reply], states + [bytes];
      }
    }
  }

  // ---- the whole command ----

  function Zeros(n: nat): (r: Bytes)
    ensures |r| == n && forall i :: 0 <= i < n ==> r[i] == 0
  {
    seq(n, i => 0)
  }

  /** One past the farthest bit written, or 0. */
  function Farthest(ops: seq<Op>): (r: nat)
    ensures forall i :: 0 <= i < |ops| && !ops[i].action.Get? ==> ops[i].offset + ops[i].bits <= r
    ensures r > 0 ==> exists i :: 0 <= i < |ops| && !ops[i].action.Get? && ops[i].offset + ops[i].bits == r
  {
    if ops == [] then 0
    else
      var r, op := Farthest(ops[..|ops| - 1]), ops[|ops| - 1];
      if !op.action.Get? && op.offset + op.bits > r then op.offset + op.bits else r
  }

  function Roomy(s: Bytes, ops: seq<Op>): Bytes {
    var last := Farthest(ops);
    if last > 0 && (last - 1) / 8 + 1 > |s| then s + Zeros((last - 1) / 8 + 1 - |s|) else s
  }

  lemma RoomReaches(s: Bytes, ops: seq<Op>, i: nat, t: Bytes)
    requires i < |ops| && |t| == |Roomy(s, ops)|
    ensures Reaches(t, ops[i])
  {
  }

  /** Making room does not change a bit. */
  lemma RoomSame(s: Bytes, ops: seq<Op>, k: nat)
    ensures PadBit(Roomy(s, ops), k) == PadBit(s, k)
  {
    hide Farthest;
    ConstantBits(k % 8);
  }

  lemma RoomBits(s: Bytes, ops: seq<Op>)
    ensures var t := Roomy(s, ops);
      && |t| >= |s| && (forall k :: 0 <= k < 8 * |t| ==> Bit(t, k) == PadBit(s, k))
      && (|t| > |s| ==> exists i :: 0 <= i < |ops| && !ops[i].action.Get? && ops[i].offset + ops[i].bits > 8 * (|t| - 1))
  {
    var t := Roomy(s, ops);
    forall k | 0 <= k < 8 * |t| ensures Bit(t, k) == PadBit(s, k) {
      RoomSame(s, ops, k);
    }
  }

  lemma GetStoresNothing(s: Bytes, op: Op)
    requires OpOk(op) && op.action.Get?
    ensures Stored(s, op) == None
  {
  }

  lemma FarBelowUnfit(x: int, n: nat)
    requires 1 <= n <= 64
    ensures FarBelow(x, n) ==> !Fits(true, x, n)
  {
    WidthBelow64(n);
  }

  lemma {:induction false} FieldMoved(s: Bytes, a: nat, t: Bytes, b: nat, n: nat)
    requires forall k :: a <= k < a + n ==> PadBit(s, k) == PadBit(t, k - a + b)
    ensures Field(s, a, n) == Field(t, b, n)
    decreases n
  {
    hide PadBit;
    if n > 0 {
      FieldMoved(s, a, t, b, n - 1);
    }
  }

  lemma BufferBit(s: Bytes, buf: Bytes, byte: nat, n: nat, k: nat)
    requires n <= 9 && k < 72 && Copied(s, buf, byte, n) && (n < 9 ==> byte + n >= |s|)
    ensures PadBit(buf, k) == PadBit(s, 8 * byte + k)
  {
    var q, r := k / 8, k % 8;
    assert (8 * byte + k) / 8 == byte + q && (8 * byte + k) % 8 == r;
    ConstantBits(r);
    hide BitOf;
    assert buf[q] == 0 || q < n;
  }

  lemma BufferField(s: Bytes, buf: Bytes, byte: nat, n: nat, offset: nat, bits: nat)
    requires n <= 9 && bits <= 64 && byte == offset / 8 && Copied(s, buf, byte, n)
    requires n < 9 ==> byte + n >= |s|
    ensures Field(buf, offset - 8 * byte, bits) == Field(s, offset, bits)
  {
    hide Copied, PadBit;
    var a := offset - 8 * byte;
    forall k | a <= k < a + bits ensures PadBit(buf, k) == PadBit(s, k - a + offset) {
      BufferBit(s, buf, byte, n, k);
    }
    FieldMoved(buf, a, s, offset, bits);
  }

  /** What an operation stores is what a later GET reads, and no bit outside the field changes. */
  lemma StoredIsRead(s: Bytes, op: Op)
    requires OpOk(op) && Reaches(s, op) && Stored(s, op).Some?
    ensures Value(After(s, op), op.offset, op.bits, op.signed) == Stored(s, op).value
    ensures Fits(op.signed, Stored(s, op).value, op.bits)
    ensures Wrote(s, After(s, op), op.offset, op.bits, Stored(s, op).value % Pow2(op.bits))
  {
    hide WriteField, Value, Wrote;
    StoredFits(s, op);
    StoredValue(s, op.offset, op.bits, op.signed, Stored(s, op).value);
  }

  lemma StoredFits(s: Bytes, op: Op)
    requires OpOk(op) && Stored(s, op).Some?
    ensures Fits(op.signed, Stored(s, op).value, op.bits)
  {
    hide Value;
    match op.action
    case IncrBy(incr) =>
      SettledFits(op.signed, Value(s, op.offset, op.bits, op.signed) + incr, op.bits, op.policy);
    case Set(x) =>
      MaxFits(op.bits);
      SettledFits(op.signed, if op.signed then x else x % TWO64, op.bits, op.policy);
  }

  lemma SettledFits(signed: bool, x: int, n: nat, policy: Policy)
    requires n > 0
    ensures Settled(signed, x, n, policy).Some? ==> Fits(signed, Settled(signed, x, n, policy).value, n)
  {
    hide Pow2;
    var q := WrapFits(signed, x, n);
    hide WrapOf;
  }

  lemma MaxFits(n: nat)
    requires n > 0
    ensures Fits(true, MaxOf(true, n), n)
  {
  }

  lemma SignedRange(x: int, u: nat, n: nat)
    requires n > 0 && u < Pow2(n) && x == SignedOf(u, n)
    ensures Fits(true, x, n)
  {
  }

  /** The outcome of a right check is the settled sum. */
  lemma SumIs(signed: bool, value: int, incr: int, n: nat, policy: Policy, c: Check, newval: int)
    requires Width(signed, n) && Fits(signed, value, n) && IsI64(incr)
    requires c.ret == 0 <==> Fits(signed, value + incr, n)
    requires c.ret != 0 && policy.Wrap? ==> c.limit == WrapOf(signed, value + incr, n)
    requires c.ret != 0 && policy.Sat? ==> c.limit == Clamp(signed, value + incr, n)
    requires newval == if c.ret != 0 then c.limit else if signed then Wrap64(value + incr) else (value + incr) % TWO64
    ensures Settled(signed, value + incr, n, policy) == if c.ret != 0 && policy.Fail? then None else Some(newval)
    ensures !(c.ret != 0 && policy.Fail?) ==> Fits(signed, newval, n)
  {
    WidthBelow64(n);
    var q := WrapFits(signed, value + incr, n);
    hide Pow2, WrapOf;
    if c.ret == 0 {
      if signed {
        Wrap64Exact(value + incr);
      } else {
        ModIs(value + incr, 0, TWO64, value + incr);
      }
    }
  }

  /** Storing the 64 bits of a number that fits stores that number. */
  lemma StoredValue(s: Bytes, offset: nat, n: nat, signed: bool, x: int)
    requires offset + n <= 8 * |s| && Width(signed, n) && Fits(signed, x, n)
    ensures x % TWO64 >= 0
    ensures var t := WriteField(s, offset, n, x % TWO64);
      Value(t, offset, n, signed) == x && Wrote(s, t, offset, n, x % Pow2(n))
  {
    hide WriteField, Field, Wrote;
    BigPowers();
    WidthBelow64(n);
    WriteWrote(s, offset, n, x % TWO64);
    ModMod(x, n, 64);
    hide Pow2;
    WroteField(s, WriteField(s, offset, n, x % TWO64), offset, n, x % Pow2(n));
    if x >= 0 {
      ModIs(x, 0, Pow2(n), x);
    } else {
      ModIs(x, -1, Pow2(n), x + Pow2(n));
    }
  }

  lemma WroteField(s: Bytes, t: Bytes, offset: nat, n: nat, value: int)
    requires Wrote(s, t, offset, n, value)
    ensures Field(t, offset, n) == value
  {
  }

  // ---- what the operations mean ----

  /** What the field holds after an operation, what the reply is, and that nothing else changes. */
  lemma OperationMeans(s: Bytes, op: Op)
    requires OpOk(op) && Reaches(s, op)
    ensures |After(s, op)| == |s| && forall k :: 0 <= k < 8 * |s| && !(op.offset <= k < op.offset + op.bits) ==> Bit(After(s, op), k) == Bit(s, k)
    ensures op.action.Get? ==> After(s, op) == s && Reply(s, op) == Some(Value(s, op.offset, op.bits, op.signed))
    ensures !op.action.Get? ==>
      var n, was, now := op.bits, Value(s, op.offset, op.bits, op.signed), Value(After(s, op), op.offset, op.bits, op.signed);
      var lo, hi := if op.signed then 0 - Pow2(n - 1) else 0, if op.signed then Pow2(n - 1) - 1 else Pow2(n) - 1;
      var want := if op.action.IncrBy? then was + op.action.incr else if op.signed then op.action.value else op.action.value % TWO64;
      && (Reply(s, op) == None <==> op.policy.Fail? && !(lo <= want <= hi))
      && (Reply(s, op) == None ==> After(s, op) == s)
      && (Reply(s, op) != None ==>
           && Reply(s, op) == Some(if op.action.Set? then was else now)
           && lo <= now <= hi && (lo <= want <= hi ==> now == want)
           && (op.policy.Wrap? ==> (now - want) % Pow2(n) == 0)
           && (op.policy.Sat? && want > hi ==> now == hi)
           && (op.policy.Sat? && want < lo ==> now == if op.action.Set? && n != 64 && want < Pow2(n - 1) - TWO63 then hi else lo))
  {
    if Stored(s, op).Some? {
      StoredIsRead(s, op);
      StoredMeans(s, op);
    } else if !op.action.Get? {
      NotStored(s, op);
    }
    hide Value, Stored, WriteField, Bit, Field;
  }

  lemma NotStored(s: Bytes, op: Op)
    requires OpOk(op) && Stored(s, op).None? && !op.action.Get?
    ensures op.policy.Fail?
    ensures !Fits(op.signed, Wanted(s, op), op.bits)
  {
    hide Value, Pow2;
  }

  /** The number that SET and INCRBY ask for. */
  function Wanted(s: Bytes, op: Op): int
    requires OpOk(op) && !op.action.Get?
  {
    match op.action
    case Set(x) => if op.signed then x else x % TWO64
    case IncrBy(incr) => Value(s, op.offset, op.bits, op.signed) + incr
  }

  lemma StoredMeans(s: Bytes, op: Op)
    requires OpOk(op) && Stored(s, op).Some?
    ensures var n, want, now := op.bits, Wanted(s, op), Stored(s, op).value;
      && (Fits(op.signed, want, n) ==> now == want)
      && (!Fits(op.signed, want, n) ==> !op.policy.Fail?)
      && (op.policy.Wrap? ==> (now - want) % Pow2(n) == 0)
      && (op.policy.Sat? && want > MaxOf(op.signed, n) ==> now == MaxOf(op.signed, n))
      && (op.policy.Sat? && want < MinOf(op.signed, n) ==>
            now == if op.action.Set? && op.signed && FarBelow(want, n) then MaxOf(op.signed, n) else MinOf(op.signed, n))
  {
    var n, want, now := op.bits, Wanted(s, op), Stored(s, op).value;
    var q := WrapFits(op.signed, want, n);
    WidthBelow64(n);
    FarBelowUnfit(if op.signed then want else 0, n);
    hide Value, Pow2, WrapOf;
    if op.policy.Wrap? {
      if Fits(op.signed, want, n) {
        ModIs(now - want, 0, Pow2(n), 0);
      } else {
        ModIs(now - want, q, Pow2(n), 0);
      }
    }
  }

  // ---- what fields are ----

  /** Two fields side by side are one field, the first one on top. */
  lemma {:induction false} FieldSplit(s: Bytes, offset: nat, m: nat, n: nat)
    ensures Field(s, offset, m + n) == Pow2(n) * Field(s, offset, m) + Field(s, offset + m, n)
    decreases n
  {
    hide PadBit;
    if n == 0 {
      assert Pow2(0) * Field(s, offset, m) == Field(s, offset, m);
    } else {
      FieldSplit(s, offset, m, n - 1);
      var f, p, g := Field(s, offset, m), Pow2(n - 1), Field(s, offset + m, n - 1);
      var bit := Count(PadBit(s, offset + m + n - 1));
      assert Field(s, offset, m + n) == 2 * Field(s, offset, m + (n - 1)) + bit;
      assert Field(s, offset + m, n) == 2 * g + bit;
      assert Pow2(n) == 2 * p;
      hide Field, Pow2;
      Doubled(p, f, g);
    }
  }

  lemma Doubled(p: int, f: int, g: int)
    ensures 2 * (p * f + g) == (2 * p) * f + 2 * g
  {
  }

  lemma HalfOf(b: bv8)
    ensures b as int == 2 * (b >> 1) as int + Count(b & 1 != 0)
  {
  }

  lemma BitAtByte(s: Bytes, i: nat, k: nat)
    requires i < |s| && k < 8
    ensures PadBit(s, 8 * i + k) == BitOf(s[i], k)
  {
    hide BitOf;
    assert (8 * i + k) / 8 == i && (8 * i + k) % 8 == k;
  }

  /** An aligned field of eight bits is the byte there, as a number. */
  lemma FieldOfByte(s: Bytes, i: nat)
    requires i < |s|
    ensures Field(s, 8 * i, 8) == s[i] as int
  {
    hide BitOf, PadBit, Field;
    FieldUnfolds(s, 8 * i);
    BitAtByte(s, i, 0);
    BitAtByte(s, i, 1);
    BitAtByte(s, i, 2);
    BitAtByte(s, i, 3);
    BitAtByte(s, i, 4);
    BitAtByte(s, i, 5);
    BitAtByte(s, i, 6);
    BitAtByte(s, i, 7);
    ByteValue(s[i]);
  }

  function Eight(b0: bool, b1: bool, b2: bool, b3: bool, b4: bool, b5: bool, b6: bool, b7: bool): nat {
    2 * (2 * (2 * (2 * (2 * (2 * (2 * Count(b0) + Count(b1)) + Count(b2)) + Count(b3)) + Count(b4)) + Count(b5)) + Count(b6)) + Count(b7)
  }

  lemma FieldUnfolds(s: Bytes, a: nat)
    ensures Field(s, a, 8) == Eight(PadBit(s, a + 0), PadBit(s, a + 1), PadBit(s, a + 2), PadBit(s, a + 3),
                                    PadBit(s, a + 4), PadBit(s, a + 5), PadBit(s, a + 6), PadBit(s, a + 7))
  {
    hide PadBit;
    assert Field(s, a, 2) == 2 * Count(PadBit(s, a)) + Count(PadBit(s, a + 1));
    assert Field(s, a, 4) == 2 * (2 * Field(s, a, 2) + Count(PadBit(s, a + 2))) + Count(PadBit(s, a + 3));
    assert Field(s, a, 6) == 2 * (2 * Field(s, a, 4) + Count(PadBit(s, a + 4))) + Count(PadBit(s, a + 5));
  }

  function Halved(b: bv8): bv8 { b >> 1 }

  predicate IsOdd(b: bv8) { b & 1 != 0 }

  function Num(b: bv8): nat { b as int }

  lemma ByteValue(b: bv8)
    ensures Num(b) == Eight(BitOf(b, 0), BitOf(b, 1), BitOf(b, 2), BitOf(b, 3), BitOf(b, 4), BitOf(b, 5), BitOf(b, 6), BitOf(b, 7))
  {
    hide BitOf, Halved, IsOdd, Num;
    var h1 := Halved(b);
    var h2 := Halved(h1);
    var h3 := Halved(h2);
    var h4 := Halved(h3);
    var h5 := Halved(h4);
    var h6 := Halved(h5);
    var h7 := Halved(h6);
    ByteBits(b);
    NothingLeft(b);
    HalfIs(b);
    HalfIs(h1);
    HalfIs(h2);
    HalfIs(h3);
    HalfIs(h4);
    HalfIs(h5);
    HalfIs(h6);
    HalfIs(h7);
  }

  lemma HalfIs(b: bv8)
    ensures Num(b) == 2 * Num(Halved(b)) + Count(IsOdd(b))
  {
    HalfOf(b);
  }

  lemma NothingLeft(b: bv8)
    ensures Num(Halved(Halved(Halved(Halved(Halved(Halved(Halved(Halved(b))))))))) == 0
  {
  }

  lemma ByteBits(b: bv8)
    ensures BitOf(b, 7) == IsOdd(b) && BitOf(b, 6) == IsOdd(Halved(b)) && BitOf(b, 5) == IsOdd(Halved(Halved(b)))
    ensures BitOf(b, 4) == IsOdd(Halved(Halved(Halved(b)))) && BitOf(b, 3) == IsOdd(Halved(Halved(Halved(Halved(b)))))
    ensures BitOf(b, 2) == IsOdd(Halved(Halved(Halved(Halved(Halved(b))))))
    ensures BitOf(b, 1) == IsOdd(Halved(Halved(Halved(Halved(Halved(Halved(b)))))))
    ensures BitOf(b, 0) == IsOdd(Halved(Halved(Halved(Halved(Halved(Halved(Halved(b))))))))
  {
  }
}
