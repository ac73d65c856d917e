/**
  Hash slots of keys, glob matching, and the slot inferred from a pattern.
  The crc16 function is a parameter.
  */
module Slots {
  import opened Basics

  // ---- glob matching ----

  /** A match result, and the flag that stops earlier stars from trying longer matches. */
  datatype Found = Found(matched: bool, skip: bool)

  const MAX_NESTING := 1000

  function SignedChar(c: char): int { if c as int >= 128 then c as int - 256 else c as int }

  function DropStars(p: string): (r: string)
    ensures |r| <= |p| && (p != [] && p[0] == '*' ==> |r| < |p|)
  {
    if p != [] && p[0] == '*' then DropStars(p[1..]) else p
  }

  predicate InRange(a: char, b: char, c: char) {
    var lo := if SignedChar(a) > SignedChar(b) then b else a;
    var hi := if SignedChar(a) > SignedChar(b) then a else b;
    SignedChar(lo) <= SignedChar(c) <= SignedChar(hi)
  }

  /** A character class after its opening bracket and sign: whether it holds `c`, and the pattern behind it. */
  function ReadClass(p: string, c: char, found: bool): (r: (bool, string))
    ensures |r.1| <= |p|
  {
    if |p| >= 2 && p[0] == '\\' then ReadClass(p[2..], c, found || p[1] == c)
    else if p == [] then (found, [])
    else if p[0] == ']' then (found, p[1..])
    else if |p| >= 3 && p[1] == '-' then ReadClass(p[3..], c, found || InRange(p[0], p[2], c))
    else ReadClass(p[1..], c, found || p[0] == c)
  }

  /** stringmatchlen_impl, case sensitive. */
  function Glob(p: string, s: string, nesting: nat, skip: bool): Found
    decreases |p|, |s|, 1
  {
    if nesting > MAX_NESTING then Found(false, skip) else MatchFrom(p, s, nesting, skip)
  }

  /** The loop over pattern and string. */
  function MatchFrom(p: string, s: string, nesting: nat, skip: bool): Found
    decreases |p|, |s|, 0
  {
    if p == [] || s == [] then Found(p == [] && s == [], skip)
    else if p[0] == '*' then
      var rest := DropStars(p);
      if rest == [] then Found(true, skip) else TryStar(rest, s, nesting, skip)
    else if p[0] == '?' then MatchNext(p[1..], s[1..], nesting, skip)
    else if p[0] == '[' then
      var negated := |p| > 1 && p[1] == '^';
      var (found, rest) := ReadClass(if negated then p[2..] else p[1..], s[0], false);
      if found == negated then Found(false, skip) else MatchNext(rest, s[1..], nesting, skip)
    else if p[0] == '\\' && |p| >= 2 then
      if p[1] != s[0] then Found(false, skip) else MatchNext(p[2..], s[1..], nesting, skip)
    else if p[0] != s[0] then Found(false, skip)
    else MatchNext(p[1..], s[1..], nesting, skip)
  }

  /** After one character: at the end of the string only stars may be left. */
  function MatchNext(p: string, s: string, nesting: nat, skip: bool): Found
    decreases |p|, |s|, 1
  {
    if s == [] then Found(DropStars(p) == [], skip) else MatchFrom(p, s, nesting, skip)
  }

  /** A star tries the rest of the pattern from every place of the string on. */
  function TryStar(p: string, s: string, nesting: nat, skip: bool): Found
    decreases |p|, |s|, 2
  {
    if s == [] then Found(false, true)
    else
      var r := Glob(p, s, nesting + 1, skip);
      if r.matched || r.skip then r else TryStar(p, s[1..], nesting, r.skip)
  }

  /** stringmatchlen */
  predicate Matches(pattern: string, key: string) { Glob(pattern, key, 0, false).matched }

  // ---- literal patterns ----

  predicate Special(c: char) { c == '*' || c == '?' || c == '[' || c == '\\' }

  /** What matches a pattern starts with the pattern's literal start. */
  lemma {:induction false} LiteralStart(p: string, s: string, n: nat, nesting: nat, skip: bool)
    requires n <= |p| && (forall i :: 0 <= i < n ==> !Special(p[i])) && MatchFrom(p, s, nesting, skip).matched
    ensures n <= |s| && s[..n] == p[..n]
    decreases n
  {
    if n > 0 {
      assert s != [] && p[0] == s[0];
      if s[1..] == [] {
        assert n == 1;
      } else {
        LiteralStart(p[1..], s[1..], n - 1, nesting, skip);
        assert s[..n] == [s[0]] + s[1..][..n - 1] && p[..n] == [p[0]] + p[1..][..n - 1];
      }
    }
  }

  /** A pattern without special characters matches only itself. */
  lemma {:induction false} LiteralWhole(p: string, s: string, nesting: nat, skip: bool)
    requires (forall i :: 0 <= i < |p| ==> !Special(p[i])) && MatchFrom(p, s, nesting, skip).matched
    ensures s == p
    decreases |p|
  {
    if p != [] {
      assert s != [] && p[0] == s[0];
      if s[1..] == [] {
        assert p[1..] == [];
      } else {
        LiteralWhole(p[1..], s[1..], nesting, skip);
      }
      assert s == [s[0]] + s[1..] && p == [p[0]] + p[1..];
    }
  }

  /** And it does match itself. */
  lemma {:induction false} LiteralMatches(p: string, nesting: nat, skip: bool)
    requires forall i :: 0 <= i < |p| ==> !Special(p[i])
    ensures MatchFrom(p, p, nesting, skip).matched
    decreases |p|
  {
    if p != [] {
      LiteralMatches(p[1..], nesting, skip);
    }
  }

  predicate Literal(p: string) { forall i :: 0 <= i < |p| ==> !Special(p[i]) }

  // ---- slots ----

  const SLOTS := 16384

  /** The part of a key that is hashed: a nonempty tag in the first braces, or all of it. */
  function Hashed(key: string): string {
    var s := Find(key, '{', 0);
    if s == |key| then key
    else
      var e := Find(key, '}', s + 1);
      if e == |key| || e == s + 1 then key else key[s + 1..e]
  }

  /** The first opening brace is at `i`, the first closing one after it at `j`, and they are not empty. */
  predicate Tagged(key: string, i: int, j: int) {
    && 0 <= i && i + 1 < j < |key| && key[i] == '{' && key[j] == '}'
    && (forall k :: 0 <= k < i ==> key[k] != '{') && (forall k :: i < k < j ==> key[k] != '}')
  }

  /** The hashed part is what stands between the braces of a tagged key, and any other key as a whole. */
  lemma HashedMeans(key: string)
    ensures forall i, j :: Tagged(key, i, j) ==> Hashed(key) == key[i + 1..j]
    ensures (forall i, j :: !Tagged(key, i, j)) ==> Hashed(key) == key
  {
    hide Find;
    forall i, j | Tagged(key, i, j) ensures Hashed(key) == key[i + 1..j] {
      FindIs(key, '{', 0, i);
      FindIs(key, '}', i + 1, j);
    }
    var s := Find(key, '{', 0);
    if s < |key| {
      var e := Find(key, '}', s + 1);
      if e < |key| && e != s + 1 {
        assert Tagged(key, s, e);
      }
    }
  }

  /** A tag written out. */
  lemma TagIsHashed(a: string, tag: string, b: string)
    requires '{' !in a && tag != [] && '}' !in tag
    ensures Hashed(a + "{" + tag + "}" + b) == tag
  {
    var key := a + "{" + tag + "}" + b;
    var i, j := |a|, |a| + 1 + |tag|;
    assert forall k :: 0 <= k < i ==> key[k] == a[k] && a[k] in a;
    assert forall k :: i < k < j ==> key[k] == tag[k - i - 1] && tag[k - i - 1] in tag;
    assert Tagged(key, i, j) && key[i + 1..j] == tag;
    hide Hashed, Tagged;
    HashedMeans(key);
  }

  function Slot(crc16: string -> nat, key: string): nat { crc16(Hashed(key)) % SLOTS }

  /** keyHashSlot */
  method KeyHashSlot(crc16: string -> nat, key: string) returns (slot: nat)
    ensures slot == Slot(crc16, key)
    ensures forall i, j :: Tagged(key, i, j) ==> slot == crc16(key[i + 1..j]) % 16384
    ensures (forall i, j :: !Tagged(key, i, j)) ==> slot == crc16(key) % 16384
  {
    HashedMeans(key);
    var s := 0;
    while s < |key|
      invariant s <= |key| && Find(key, '{', 0) == Find(key, '{', s)
    {
      if key[s] == '{' {
        break;
      }
      s := s + 1;
    }
    if s == |key| {
      return crc16(key) % SLOTS;
    }
    var e := s + 1;
    while e < |key|
      invariant s + 1 <= e <= |key| && Find(key, '}', s + 1) == Find(key, '}', e)
    {
      if key[e] == '}' {
        break;
      }
      e := e + 1;
    }
    if e == |key| || e == s + 1 {
      return crc16(key) % SLOTS;
    }
    return crc16(key[s + 1..e]) % SLOTS;
  }

  /** How far a pattern has to be literal to fix the hashed part: up to the end of a tag, or all the way. */
  function Decisive(pattern: string): (n: nat)
    ensures n <= |pattern|
  {
    var s := Find(pattern, '{', 0);
    if s == |pattern| then |pattern|
    else
      var e := Find(pattern, '}', s + 1);
      if e == |pattern| || e == s + 1 then |pattern| else e + 1
  }

  predicate Decided(pattern: string) { forall i :: 0 <= i < Decisive(pattern) ==> !Special(pattern[i]) }

  /** Every key that matches a pattern that is literal far enough has the hashed part of the pattern. */
  lemma DecidedHashed(pattern: string, key: string)
    requires Decided(pattern) && Matches(pattern, key)
    ensures Hashed(key) == Hashed(pattern)
  {
    hide MatchFrom, Find;
    var n := Decisive(pattern);
    if n == |pattern| {
      LiteralWhole(pattern, key, 0, false);
    } else {
      LiteralStart(pattern, key, n, 0, false);
      var s := Find(pattern, '{', 0);
      var e := Find(pattern, '}', s + 1);
      SameStart(key, pattern, n);
      FindIs(key, '{', 0, s);
      FindIs(key, '}', s + 1, e);
      assert key[s + 1..e] == pattern[s + 1..e];
    }
  }

  /** A literal pattern is decided, and has itself as its key. */
  lemma LiteralDecides(pattern: string)
    ensures Literal(pattern) ==> Decided(pattern) && Matches(pattern, pattern)
  {
    hide MatchFrom, Find;
    if Literal(pattern) {
      LiteralMatches(pattern, 0, false);
    }
  }

  lemma SameStart(a: string, b: string, n: nat)
    requires n <= |a| && n <= |b| && a[..n] == b[..n]
    ensures forall i :: 0 <= i < n ==> a[i] == b[i]
  {
    assert forall i :: 0 <= i < n ==> a[..n][i] == b[..n][i];
  }

  lemma FindIs(s: string, c: char, from: nat, k: nat)
    requires from <= k < |s| && s[k] == c && forall i :: from <= i < k ==> s[i] != c
    ensures Find(s, c, from) == k
  {
  }

  /** Which patterns are decided, written out. */
  lemma DecidedMeans(pattern: string)
    ensures forall i, j :: Tagged(pattern, i, j) ==>
      (Decided(pattern) <==> forall k :: 0 <= k < j ==> pattern[k] !in "*?[\\") && Hashed(pattern) == pattern[i + 1..j]
    ensures (forall i, j :: !Tagged(pattern, i, j)) ==>
      (Decided(pattern) <==> forall k :: 0 <= k < |pattern| ==> pattern[k] !in "*?[\\") && Hashed(pattern) == pattern
  {
    HashedMeans(pattern);
    SpecialMeans();
    hide Find, Special, Hashed;
    forall i, j | Tagged(pattern, i, j)
      ensures Decided(pattern) <==> forall k :: 0 <= k < j ==> pattern[k] !in "*?[\\"
    {
      FindIs(pattern, '{', 0, i);
      FindIs(pattern, '}', i + 1, j);
      assert Decisive(pattern) == j + 1;
    }
    var s := Find(pattern, '{', 0);
    if s < |pattern| {
      var e := Find(pattern, '}', s + 1);
      if e < |pattern| && e != s + 1 {
        assert Tagged(pattern, s, e);
      }
    }
  }

  lemma SpecialMeans()
    ensures forall c: char :: Special(c) <==> c in "*?[\\"
    ensures !Special('}')
  {
    var w := "*?[\\";
    assert w[0] == '*' && w[1] == '?' && w[2] == '[' && w[3] == '\\' && |w| == 4;
  }

  /** Where a scan of the pattern stands: before any brace, in the first tag, or past an empty one. */
  ghost predicate Scanning(pattern: string, i: nat, s: int)
    requires i <= |pattern|
  {
    var open := Find(pattern, '{', 0);
    if s == -1 then i <= open
    else if s == -2 then open + 1 < |pattern| && pattern[open + 1] == '}'
    else open == s < i && i <= Find(pattern, '}', s + 1)
  }

  /**
    patternHashSlot. A slot is returned exactly when the pattern is literal up to
    the end of its tag, or throughout; and then every matching key is in it.
    */
  method PatternHashSlot(crc16: string -> nat, pattern: string) returns (slot: int)
    ensures forall i, j :: Tagged(pattern, i, j) ==>
      slot == if forall k :: 0 <= k < j ==> pattern[k] !in "*?[\\" then crc16(pattern[i + 1..j]) % 16384 else -1
    ensures (forall i, j :: !Tagged(pattern, i, j)) ==>
      slot == if forall k :: 0 <= k < |pattern| ==> pattern[k] !in "*?[\\" then crc16(pattern) % 16384 else -1
    ensures slot >= 0 ==> forall key :: Matches(pattern, key) ==> Slot(crc16, key) == slot
    ensures Literal(pattern) ==> Matches(pattern, pattern) && slot == Slot(crc16, pattern)
  {
    hide Matches, Literal, Decided, Hashed, Tagged;
    DecidedMeans(pattern);
    LiteralDecides(pattern);
    slot := ScanPattern(crc16, pattern);
  }

  /** The loop over the pattern. */
  method ScanPattern(crc16: string -> nat, pattern: string) returns (slot: int)
    ensures slot == if Decided(pattern) then Slot(crc16, pattern) else -1
    ensures slot >= 0 ==> forall key :: Matches(pattern, key) ==> Slot(crc16, key) == slot
  {
    hide Matches, Find;
    var s := -1;
    for i := 0 to |pattern|
      invariant -2 <= s < i && Scanning(pattern, i, s)
      invariant i <= Decisive(pattern) && forall k :: 0 <= k < i ==> !Special(pattern[k])
    {
      if Special(pattern[i]) {
        ScanIn(pattern, i, s);
        return -1;
      } else if s == -1 && pattern[i] == '{' {
        s := i;
      } else if s >= 0 && pattern[i] == '}' && i == s + 1 {
        s := -2;
      } else if s >= 0 && pattern[i] == '}' {
        slot := crc16(pattern[s + 1..i]) % SLOTS;
        forall key | Matches(pattern, key) ensures Slot(crc16, key) == slot {
          DecidedHashed(pattern, key);
        }
        return;
      }
    }
    slot := crc16(pattern) % SLOTS;
    forall key | Matches(pattern, key) ensures Slot(crc16, key) == slot {
      DecidedHashed(pattern, key);
    }
  }

  lemma ScanIn(pattern: string, i: nat, s: int)
    requires i < |pattern| && -2 <= s < i && Scanning(pattern, i, s)
    ensures i < Decisive(pattern)
  {
  }
}
