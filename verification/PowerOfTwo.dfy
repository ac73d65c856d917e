/**
  Powers of two, shifts and low bits of numbers.
  */
module PowerOfTwo {
  function Pow2(n: nat): (r: nat)
    ensures r > 0
  {
    if n == 0 then 1 else 2 * Pow2(n - 1)
  }

  /** v >> k */
  function Shift(v: nat, k: nat): nat { if k == 0 then v else Shift(v, k - 1) / 2 }

  predicate TestBit(v: nat, k: nat) { Shift(v, k) % 2 == 1 }

  /** The low `n` bits of `v`. */
  function Low(v: nat, n: nat): (r: nat)
    ensures r < Pow2(n)
  {
    if n == 0 then 0 else 2 * Low(v / 2, n - 1) + v % 2
  }

  lemma {:induction false} PowAdd(a: nat, b: nat)
    ensures Pow2(a + b) == Pow2(a) * Pow2(b)
    decreases b
  {
    if b > 0 {
      PowAdd(a, b - 1);
      assert Pow2(a + b) == 2 * (Pow2(a) * Pow2(b - 1)) == Pow2(a) * (2 * Pow2(b - 1));
    }
  }

  lemma {:induction false} PowMonotone(a: nat, b: nat)
    requires a <= b
    ensures Pow2(a) <= Pow2(b)
    decreases b
  {
    if a < b {
      PowMonotone(a, b - 1);
    }
  }

  const TWO63: int := 0x8000_0000_0000_0000
  const TWO64: int := 0x1_0000_0000_0000_0000

  lemma BigPowers()
    ensures Pow2(63) == TWO63 && Pow2(64) == TWO64
  {
    assert Pow2(4) == 16;
    PowAdd(4, 4);
    PowAdd(8, 8);
    PowAdd(16, 16);
    PowAdd(32, 32);
    assert Pow2(64) == 2 * Pow2(63);
  }

  // ---- remainders ----

  lemma ModIs(v: int, q: int, m: int, r: int)
    requires m > 0 && 0 <= r < m && v == m * q + r
    ensures v % m == r
  {
    var d := q - v / m;
    assert m * d == v % m - r by { Distribute(m, q, -(v / m)); }
    assert d >= 1 ==> m * d >= m by { if d >= 1 { Times(1, d, m); } }
    assert d <= -1 ==> m * d <= -m by { if d <= -1 { Times(d, -1, m); } }
  }

  lemma Times(a: int, b: int, p: int)
    requires a <= b && p >= 0
    ensures a * p <= b * p
  {
    assert (b - a) * p >= 0;
  }

  lemma Distribute(m: int, a: int, b: int)
    ensures m * (a + b) == m * a + m * b
  {
  }

  lemma Associate(a: int, b: int, c: int)
    ensures (a * b) * c == a * (b * c)
  {
  }

  lemma {:induction false} LowMod(v: nat, n: nat)
    ensures Low(v, n) == v % Pow2(n)
    ensures exists q :: v == Pow2(n) * q + Low(v, n)
    decreases n
  {
    if n == 0 {
      assert v == Pow2(0) * v + Low(v, 0);
    } else {
      LowMod(v / 2, n - 1);
      var q :| v / 2 == Pow2(n - 1) * q + Low(v / 2, n - 1);
      assert 2 * (Pow2(n - 1) * q) == Pow2(n) * q;
      assert v == Pow2(n) * q + Low(v, n);
      ModIs(v, q, Pow2(n), Low(v, n));
    }
  }

  /** Reducing modulo a larger power first changes nothing. */
  lemma ModMod(v: int, n: nat, k: nat)
    requires n <= k
    ensures v % Pow2(k) % Pow2(n) == v % Pow2(n)
  {
    PowAdd(n, k - n);
    hide Pow2;
    ModProduct(v, Pow2(n), Pow2(k - n));
  }

  lemma ModProduct(v: int, m: int, c: int)
    requires m > 0 && c > 0 && m * c > 0
    ensures v % (m * c) % m == v % m
  {
    var q, w := v / (m * c), v % (m * c);
    var q2, r := w / m, w % m;
    assert v == (m * c) * q + w && w == m * q2 + r;
    Associate(m, c, q);
    Distribute(m, c * q, q2);
    ModIs(v, c * q + q2, m, r);
  }

  lemma {:induction false} ShiftBounds(v: nat, k: nat)
    ensures Shift(v, k) * Pow2(k) <= v < (Shift(v, k) + 1) * Pow2(k)
    decreases k
  {
    if k > 0 {
      ShiftBounds(v, k - 1);
      var q, h, p := Shift(v, k - 1), Shift(v, k), Pow2(k - 1);
      Times(2 * h, q, p);
      Times(q + 1, 2 * h + 2, p);
      Associate(h, 2, p);
      Associate(h + 1, 2, p);
    }
  }

  /** The top bit of an `n`-bit number tells whether it reaches the upper half. */
  lemma TopBitIs(v: nat, n: nat)
    requires n > 0 && v < Pow2(n)
    ensures TestBit(v, n - 1) <==> v >= Pow2(n - 1)
  {
    ShiftBounds(v, n - 1);
    var q, p := Shift(v, n - 1), Pow2(n - 1);
    assert q >= 2 ==> q * p >= 2 * p by { if q >= 2 { Times(2, q, p); } }
    assert q == 0 ==> (q + 1) * p == p;
  }
}
