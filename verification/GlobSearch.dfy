/**
  The search of the glob matcher stops early: when what follows a star matches
  nowhere in the rest of the string, no earlier star tries a longer match.
  Up to the nesting limit this finds exactly what the full search finds.
  */
module GlobSearch {
  import opened Slots

  // ---- the full search ----

  /** The first element of a pattern, which is no star, accepts the character. */
  predicate Accepts(p: string, c: char)
    requires p != []
  {
    if p[0] == '?' then true
    else if p[0] == '[' then
      var negated := |p| > 1 && p[1] == '^';
      ReadClass(if negated then p[2..] else p[1..], c, false).0 != negated
    else if p[0] == '\\' && |p| >= 2 then p[1] == c
    else p[0] == c
  }

  /** The pattern behind its first element. */
  function Rest(p: string): (r: string)
    requires p != []
    ensures |r| < |p|
  {
    if p[0] == '[' then ReadClass(if |p| > 1 && p[1] == '^' then p[2..] else p[1..], 'a', false).1
    else if p[0] == '\\' && |p| >= 2 then p[2..]
    else p[1..]
  }

  predicate Plain(p: string, s: string)
    decreases |p|, |s|, 0
  {
    if p == [] || s == [] then p == [] && s == []
    else if p[0] == '*' then DropStars(p) == [] || PlainStar(DropStars(p), s)
    else Accepts(p, s[0]) && PlainNext(Rest(p), s[1..])
  }

  predicate PlainNext(p: string, s: string)
    decreases |p|, |s|, 1
  {
    if s == [] then DropStars(p) == [] else Plain(p, s)
  }

  /** The pattern matches from some place of the string on. */
  predicate PlainStar(p: string, s: string)
    decreases |p|, |s|, 1
  {
    s != [] && (Plain(p, s) || PlainStar(p, s[1..]))
  }

  // ---- elements ----

  lemma {:induction false} ClassRest(p: string, c: char, d: char, f: bool, g: bool)
    ensures ReadClass(p, c, f).1 == ReadClass(p, d, g).1
    decreases |p|
  {
    hide InRange;
    if |p| >= 2 && p[0] == '\\' {
      ClassRest(p[2..], c, d, f || p[1] == c, g || p[1] == d);
    } else if p != [] && p[0] != ']' {
      if |p| >= 3 && p[1] == '-' {
        ClassRest(p[3..], c, d, f || InRange(p[0], p[2], c), g || InRange(p[0], p[2], d));
      } else {
        ClassRest(p[1..], c, d, f || p[0] == c, g || p[0] == d);
      }
    }
  }

  /** An element other than a star takes one character. */
  lemma OneElement(p: string, s: string, nesting: nat, skip: bool)
    requires p != [] && s != [] && p[0] != '*'
    ensures MatchFrom(p, s, nesting, skip)
         == if Accepts(p, s[0]) then MatchNext(Rest(p), s[1..], nesting, skip) else Found(false, skip)
  {
    hide MatchNext, ReadClass;
    if p[0] == '[' {
      ClassRest(if |p| > 1 && p[1] == '^' then p[2..] else p[1..], s[0], 'a', false, false);
    }
  }

  // ---- patterns that match nowhere ----

  /** The pattern matches from no place of the string on, not even at its end. */
  ghost predicate Dead(p: string, s: string) { forall k :: 0 <= k <= |s| ==> !Plain(p, s[k..]) }

  lemma {:induction false} StarFindsSuffix(p: string, s: string, k: nat)
    requires k <= |s| && PlainStar(p, s[k..])
    ensures PlainStar(p, s)
    decreases |s|
  {
    hide Plain;
    if k == 0 {
      assert s[0..] == s;
    } else {
      assert s[1..][k - 1..] == s[k..];
      StarFindsSuffix(p, s[1..], k - 1);
    }
  }

  lemma {:induction false} DeadHasNoStar(p: string, s: string)
    requires Dead(p, s)
    ensures !PlainStar(p, s)
    decreases |s|
  {
    hide Plain;
    if s != [] {
      assert s[0..] == s && !Plain(p, s[0..]);
      forall k | 0 <= k <= |s[1..]| ensures !Plain(p, s[1..][k..]) {
        assert s[1..][k..] == s[k + 1..];
      }
      DeadHasNoStar(p, s[1..]);
    }
  }

  /** Without a match for the rest anywhere, a star pattern is dead. */
  lemma NoStarIsDead(p: string, s: string)
    requires p != [] && p[0] == '*' && DropStars(p) != [] && !PlainStar(DropStars(p), s)
    ensures Dead(p, s)
  {
    hide PlainStar;
    forall k | 0 <= k <= |s| ensures !Plain(p, s[k..]) {
      if PlainStar(DropStars(p), s[k..]) {
        StarFindsSuffix(DropStars(p), s, k);
      }
    }
  }

  /** If the rest is dead behind the first character, so is the pattern. */
  lemma ElementBeforeDead(p: string, s: string)
    requires p != [] && s != [] && p[0] != '*' && s[1..] != [] && Dead(Rest(p), s[1..])
    ensures Dead(p, s)
  {
    var q, t := Rest(p), s[1..];
    assert t[0..] == t && !Plain(q, t[0..]);
    assert t[|t|..] == [] && !Plain(q, t[|t|..]);
    assert DropStars(q) != [];
    hide Accepts, Rest, DropStars;
    forall k | 0 <= k <= |s| ensures !Plain(p, s[k..]) {
      if k < |s| {
        assert s[k..][1..] == t[k..] && !Plain(q, t[k..]);
      }
    }
  }

  // ---- the early stop loses nothing ----

  /** How deep the search nests: one call for each run of stars that has something behind it. */
  function Depth(p: string): nat
    decreases |p|
  {
    if p == [] then 0
    else if p[0] != '*' then Depth(Rest(p))
    else if DropStars(p) == [] then 0
    else 1 + Depth(DropStars(p))
  }

  /** The search finds a match exactly if there is one, and raises the flag only for a pattern that is dead. */
  ghost predicate Right(r: Found, p: string, s: string) {
    (r.matched <==> Plain(p, s)) && (!r.matched && r.skip ==> Dead(p, s))
  }

  lemma {:induction false} SearchIsRight(p: string, s: string, nesting: nat)
    requires nesting + Depth(p) <= MAX_NESTING
    ensures Right(MatchFrom(p, s, nesting, false), p, s)
    decreases |p|, |s|, 1
  {
    if p != [] && s != [] {
      if p[0] == '*' {
        StarIsRight(p, s, nesting);
      } else {
        OneElement(p, s, nesting, false);
        var q, t := Rest(p), s[1..];
        assert Plain(p, s) <==> Accepts(p, s[0]) && PlainNext(q, t);
        assert t != [] ==> (PlainNext(q, t) <==> Plain(q, t));
        hide MatchFrom, Accepts, Rest, Plain;
        if t != [] {
          SearchIsRight(q, t, nesting);
          var r := MatchFrom(q, t, nesting, false);
          assert MatchNext(q, t, nesting, false) == r;
          if r.skip && !r.matched {
            ElementBeforeDead(p, s);
          }
        }
      }
    }
  }

  lemma {:induction false} StarIsRight(p: string, s: string, nesting: nat)
    requires p != [] && s != [] && p[0] == '*' && nesting + Depth(p) <= MAX_NESTING
    ensures Right(MatchFrom(p, s, nesting, false), p, s)
    decreases |p|, |s|, 0
  {
    var q := DropStars(p);
    if q != [] {
      TryIsRight(q, s, nesting);
      if !PlainStar(q, s) {
        NoStarIsDead(p, s);
      }
    }
  }

  /** A star that fails has looked everywhere. */
  lemma {:induction false} TryIsRight(p: string, s: string, nesting: nat)
    requires nesting + 1 + Depth(p) <= MAX_NESTING
    ensures TryStar(p, s, nesting, false).matched <==> PlainStar(p, s)
    decreases |p|, |s|, 2
  {
    if s != [] {
      SearchIsRight(p, s, nesting + 1);
      var r := Glob(p, s, nesting + 1, false);
      hide MatchFrom, Plain;
      if r.matched {
      } else if r.skip {
        DeadHasNoStar(p, s);
      } else {
        TryIsRight(p, s[1..], nesting);
      }
    }
  }

  // ---- beyond the nesting limit ----

  /** A match has to go through every run of stars, so a pattern that nests too deep matches nothing. */
  lemma {:induction false} TooDeep(p: string, s: string, nesting: nat, skip: bool)
    requires nesting + Depth(p) > MAX_NESTING >= nesting
    ensures !MatchFrom(p, s, nesting, skip).matched
    decreases |p|, |s|, 1
  {
    if p != [] && s != [] {
      if p[0] == '*' {
        TryTooDeep(DropStars(p), s, nesting, skip);
      } else {
        OneElement(p, s, nesting, skip);
        hide MatchFrom;
        if s[1..] == [] {
          OnlyStarsAreFlat(Rest(p));
        } else {
          TooDeep(Rest(p), s[1..], nesting, skip);
        }
      }
    }
  }

  lemma OnlyStarsAreFlat(p: string)
    ensures DropStars(p) == [] ==> Depth(p) == 0
  {
  }

  lemma {:induction false} TryTooDeep(p: string, s: string, nesting: nat, skip: bool)
    requires nesting + 1 + Depth(p) > MAX_NESTING >= nesting
    ensures !TryStar(p, s, nesting, skip).matched
    decreases |p|, |s|, 2
  {
    if s != [] {
      if nesting + 1 <= MAX_NESTING {
        TooDeep(p, s, nesting + 1, skip);
      }
      var r := Glob(p, s, nesting + 1, skip);
      hide MatchFrom;
      TryTooDeep(p, s[1..], nesting, r.skip);
    }
  }

  /** The matcher decides the plain meaning of a pattern, except that it matches nothing beyond its nesting limit. */
  lemma MatchesIsPlain(pattern: string, key: string)
    ensures Matches(pattern, key) <==> Plain(pattern, key) && Depth(pattern) <= MAX_NESTING
  {
    if Depth(pattern) <= MAX_NESTING {
      SearchIsRight(pattern, key, 0);
    } else {
      TooDeep(pattern, key, 0, false);
    }
  }

  function Times(s: string, n: nat): string { if n == 0 then [] else s + Times(s, n - 1) }

  lemma {:induction false} StarredMatches(n: nat)
    ensures Plain(Times("*a", n), Times("a", n)) && Depth(Times("*a", n)) == n
  {
    if n > 0 {
      StarredMatches(n - 1);
      var p, s := Times("*a", n), Times("a", n);
      var q := p[1..];
      assert p[0] == '*' && q[0] == 'a' && q[1..] == Times("*a", n - 1);
      assert s[0] == 'a' && s[1..] == Times("a", n - 1);
      assert DropStars(p) == q && Rest(q) == Times("*a", n - 1);
      if n == 1 {
        assert s[1..] == [] && q[1..] == [];
      }
      assert Plain(q, s);
      assert PlainStar(q, s);
    }
  }

  /** A thousand and one stars, each with a letter behind it, are refused where they should match. */
  lemma DeepPatternIsRefused()
    ensures Plain(Times("*a", 1001), Times("a", 1001)) && !Matches(Times("*a", 1001), Times("a", 1001))
  {
    hide Plain, Matches, Depth, Times;
    StarredMatches(1001);
    MatchesIsPlain(Times("*a", 1001), Times("a", 1001));
  }

  // ---- what the elements stand for ----

  /** A pattern of one element matches one character, if the element accepts it. */
  lemma OneCharacter(p: string, c: char)
    requires p != [] && p[0] != '*' && Rest(p) == []
    ensures Matches(p, [c]) <==> Accepts(p, c)
  {
    OneElement(p, [c], 0, false);
    assert [c][1..] == [];
    hide Accepts, MatchFrom;
  }

  /** `?` matches every character, and a backslash takes away the meaning of the next one. */
  lemma AnyAndEscaped(c: char, d: char)
    ensures Matches("?", [c])
    ensures Matches(['\\', d], [c]) <==> c == d
  {
    OneCharacter("?", c);
    OneCharacter(['\\', d], c);
  }

  /** Characters are compared as the C type that has a sign. */
  function AsSigned(c: char): int { if c as int < 128 then c as int else c as int - 256 }

  /** `[a-b]` matches the characters from one end to the other, in either order of the ends, and `[^a-b]` all others. */
  lemma RangeClass(a: char, b: char, c: char)
    requires a != '\\' && a != ']' && a != '^' && a as int < 256 && b as int < 256 && c as int < 256
    ensures Matches(['[', a, '-', b, ']'], [c]) <==>
      AsSigned(a) <= AsSigned(c) <= AsSigned(b) || AsSigned(b) <= AsSigned(c) <= AsSigned(a)
    ensures Matches(['[', '^', a, '-', b, ']'], [c]) <==> !Matches(['[', a, '-', b, ']'], [c])
  {
    var p, n := ['[', a, '-', b, ']'], ['[', '^', a, '-', b, ']'];
    var body := [a, '-', b, ']'];
    assert p[1..] == body && n[2..] == body && body[3..] == [']'] && [']'][1..] == [];
    ReadRange(a, b, c);
    ReadRange(a, b, 'a');
    hide ReadClass;
    OneCharacter(p, c);
    OneCharacter(n, c);
  }

  lemma ReadRange(a: char, b: char, c: char)
    requires a != '\\' && a != ']'
    ensures ReadClass([a, '-', b, ']'], c, false) == (InRange(a, b, c), [])
  {
    var body := [a, '-', b, ']'];
    assert body[3..] == [']'] && [']'][1..] == [];
    assert ReadClass([']'], c, InRange(a, b, c)) == (InRange(a, b, c), []);
  }

  /** A word of characters that have no meaning of their own in a class. */
  predicate Listed(w: string) { forall i :: 0 <= i < |w| ==> w[i] != '\\' && w[i] != ']' && w[i] != '-' && w[i] != '^' }

  lemma {:induction false} ReadListed(w: string, c: char, found: bool)
    requires Listed(w)
    ensures ReadClass(w + "]", c, found) == (found || c in w, [])
    decreases |w|
  {
    var p := w + "]";
    if w == [] {
      assert p == "]" && p[1..] == [];
    } else {
      assert p[1..] == w[1..] + "]" && p[0] == w[0];
      assert |w| > 1 ==> p[1] == w[1];
      ReadListed(w[1..], c, found || w[0] == c);
      assert w == [w[0]] + w[1..];
    }
  }

  /** `[abc]` matches exactly the characters listed, and `[^abc]` all others. */
  lemma ListClass(w: string, c: char)
    requires Listed(w)
    ensures Matches("[" + (w + "]"), [c]) <==> c in w
    ensures Matches("[^" + (w + "]"), [c]) <==> c !in w
  {
    var p, n, body := "[" + (w + "]"), "[^" + (w + "]"), w + "]";
    assert p[1..] == body && n[2..] == body && body[0] != '^' && p[1] == body[0];
    ReadListed(w, c, false);
    ReadListed(w, 'a', false);
    hide ReadClass;
    OneCharacter(p, c);
    OneCharacter(n, c);
  }
}
