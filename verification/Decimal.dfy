/** Decimal text of integers: what ll2string and %lld print and what atoi, atoll and strtol read back. */
module Decimal {

  predicate IsDigit(c: char) { '0' <= c <= '9' }

  predicate AllDigits(s: string) { forall i :: 0 <= i < |s| ==> IsDigit(s[i]) }

  function DigitChar(d: nat): (c: char)
    requires d < 10
    ensures IsDigit(c) && DigitValue(c) == d
  {
    "0123456789"[d]
  }

  function DigitValue(c: char): (d: nat)
    requires IsDigit(c)
    ensures d < 10
  {
    c as int - '0' as int
  }

  /** The decimal digits of a natural number, without leading zeros. */
  function Digits(n: nat): (s: string)
    ensures s != [] && AllDigits(s)
  {
    if n < 10 then [DigitChar(n)] else Digits(n / 10) + [DigitChar(n % 10)]
  }

  /** The number a string of digits denotes. */
  function Value(s: string): nat
    requires AllDigits(s)
  {
    if s == [] then 0 else 10 * Value(s[..|s| - 1]) + DigitValue(s[|s| - 1])
  }

  lemma {:induction false} ValueOfDigits(n: nat)
    ensures Value(Digits(n)) == n
  {
    if n >= 10 {
      ValueOfDigits(n / 10);
      var s := Digits(n / 10);
      assert (s + [DigitChar(n % 10)])[..|s|] == s;
    } else {
      assert Value([]) == 0;
      assert [DigitChar(n)][..0] == [];
    }
  }

  function Pow10(k: nat): nat { if k == 0 then 1 else 10 * Pow10(k - 1) }

  lemma {:induction false} DigitsLength(n: nat, k: nat)
    requires n < Pow10(k) && k > 0
    ensures |Digits(n)| <= k
    decreases k
  {
    if n >= 10 {
      DigitsLength(n / 10, k - 1);
    }
  }

  lemma BigPow()
    ensures Pow10(20) == 100_000_000_000_000_000_000
  {
    assert Pow10(5) == 100_000;
    assert Pow10(10) == 10_000_000_000 by { assert Pow10(7) == 100 * Pow10(5); assert Pow10(9) == 100 * Pow10(7); }
    assert Pow10(15) == 100_000 * Pow10(10) by { assert Pow10(12) == 100 * Pow10(10); assert Pow10(14) == 100 * Pow10(12); }
    assert Pow10(20) == 100_000 * Pow10(15) by { assert Pow10(17) == 100 * Pow10(15); assert Pow10(19) == 100 * Pow10(17); }
  }

  /** How many leading characters are digits. */
  function DigitRun(s: string): (n: nat)
    ensures n <= |s| && AllDigits(s[..n])
    ensures n < |s| ==> !IsDigit(s[n])
  {
    if s == [] || !IsDigit(s[0]) then 0 else
      var n := DigitRun(s[1..]);
      assert s[..n + 1] == [s[0]] + s[1..][..n];
      n + 1
  }

  predicate IsSpace(c: char) {
    c == ' ' || c == '\t' || c == '\n' || c == '\r' || c == 11 as char || c == 12 as char
  }

  /** atoi, atoll and strtol in base ten: blanks, an optional sign, then the longest run of digits. */
  function Atoi(s: string): int {
    if s == [] then 0
    else if IsSpace(s[0]) then Atoi(s[1..])
    else if s[0] == '-' then 0 - Value(s[1..][..DigitRun(s[1..])])
    else if s[0] == '+' then Value(s[1..][..DigitRun(s[1..])])
    else Value(s[..DigitRun(s)])
  }

  lemma {:induction false} DigitRunStops(s: string, rest: string)
    requires AllDigits(s) && (rest == [] || !IsDigit(rest[0]))
    ensures DigitRun(s + rest) == |s|
  {
    if s == [] {
      assert s + rest == rest;
    } else {
      assert (s + rest)[1..] == s[1..] + rest;
      DigitRunStops(s[1..], rest);
    }
  }

  /** Reading back printed digits stops at the first character that is not one. */
  lemma AtoiOfDigits(n: nat, rest: string)
    requires rest == [] || !IsDigit(rest[0])
    ensures Atoi(Digits(n) + rest) == n
  {
    var s := Digits(n);
    DigitRunStops(s, rest);
    assert (s + rest)[..|s|] == s;
    assert (s + rest)[0] == s[0];
    ValueOfDigits(n);
  }

  /** Printed numbers followed by a separator determine the number and what follows. */
  lemma DigitsInjective(m: nat, n: nat, r: string, t: string)
    requires r == [] || !IsDigit(r[0])
    requires t == [] || !IsDigit(t[0])
    requires Digits(m) + r == Digits(n) + t
    ensures m == n && r == t
  {
    AtoiOfDigits(m, r);
    AtoiOfDigits(n, t);
    assert (Digits(m) + r)[|Digits(m)|..] == r;
    assert (Digits(n) + t)[|Digits(n)|..] == t;
  }
}
