/**
  The quoting of sds.c: `Repr` (sdscatrepr) writes a byte string so that
  `SplitArgs` (sdssplitargs) reads it back as one argument.
  */
module SdsText {
  import opened Wrappers
  import opened Decimal

  /** Strings of bytes. */
  predicate IsBytes(s: string) { forall i :: 0 <= i < |s| ==> s[i] as int < 256 }

  const ALERT: char := 7 as char
  const BACKSPACE: char := 8 as char

  predicate IsPrint(c: char) { 32 <= c as int < 127 }

  function ToLowerChar(c: char): char {
    if 'A' <= c <= 'Z' then c + 32 as char else c
  }

  function ToLower(s: string): (r: string)
    ensures |r| == |s| && forall i :: 0 <= i < |s| ==> r[i] == ToLowerChar(s[i])
  {
    if s == [] then [] else [ToLowerChar(s[0])] + ToLower(s[1..])
  }

  // ---- writing ----

  function HexDigit(d: nat): (c: char)
    requires d < 16
    ensures IsHexDigit(c) && HexValue(c) == d
  {
    "0123456789abcdef"[d]
  }

  function ReprChar(c: char): string {
    if c == '\\' || c == '"' then ['\\', c]
    else if c == '\n' then ['\\', 'n']
    else if c == '\r' then ['\\', 'r']
    else if c == '\t' then ['\\', 't']
    else if c == ALERT then ['\\', 'a']
    else if c == BACKSPACE then ['\\', 'b']
    else if IsPrint(c) then [c]
    else ['\\', 'x', HexDigit(c as int % 256 / 16), HexDigit(c as int % 16)]
  }

  function ReprBody(s: string): string {
    if s == [] then [] else ReprChar(s[0]) + ReprBody(s[1..])
  }

  function Repr(s: string): string { ['"'] + ReprBody(s) + ['"'] }

  /** sdsneedsrepr */
  predicate NeedsRepr(s: string) {
    exists i :: 0 <= i < |s| && CharNeedsRepr(s[i])
  }

  predicate CharNeedsRepr(c: char) {
    c == '\\' || c == '"' || c == '\n' || c == '\r' || c == '\t' || c == ALERT || c == BACKSPACE ||
    !IsPrint(c) || IsSpace(c)
  }

  // ---- reading ----

  predicate IsHexDigit(c: char) { IsDigit(c) || 'a' <= c <= 'f' || 'A' <= c <= 'F' }

  function HexValue(c: char): (v: nat)
    requires IsHexDigit(c)
    ensures v < 16
  {
    if IsDigit(c) then DigitValue(c)
    else if 'a' <= c <= 'f' then c as int - 'a' as int + 10
    else c as int - 'A' as int + 10
  }

  function Unescape(c: char): char {
    if c == 'n' then '\n'
    else if c == 'r' then '\r'
    else if c == 't' then '\t'
    else if c == 'b' then BACKSPACE
    else if c == 'a' then ALERT
    else c
  }

  datatype Quoting = Plain | Double | Single

  /** One argument read so far as `cur`, with the text left after it. */
  datatype Token = Token(text: string, rest: string)

  /** The token loop of sdssplitargs; None is its error exit. */
  function ReadToken(s: string, quoting: Quoting, cur: string): (r: Option<Token>)
    ensures r.Some? ==> |r.value.rest| <= |s|
    ensures r.Some? && s != [] ==> |r.value.rest| < |s|
  {
    match quoting
    case Double =>
      if |s| >= 4 && s[0] == '\\' && s[1] == 'x' && IsHexDigit(s[2]) && IsHexDigit(s[3]) then
        ReadToken(s[4..], Double, cur + [(HexValue(s[2]) * 16 + HexValue(s[3])) as char])
      else if |s| >= 2 && s[0] == '\\' then
        ReadToken(s[2..], Double, cur + [Unescape(s[1])])
      else if s == [] then None
      else if s[0] == '"' then
        if |s| >= 2 && !IsSpace(s[1]) then None else Some(Token(cur, s[1..]))
      else ReadToken(s[1..], Double, cur + [s[0]])
    case Single =>
      if |s| >= 2 && s[0] == '\\' && s[1] == '\'' then
        ReadToken(s[2..], Single, cur + ['\''])
      else if s == [] then None
      else if s[0] == '\'' then
        if |s| >= 2 && !IsSpace(s[1]) then None else Some(Token(cur, s[1..]))
      else ReadToken(s[1..], Single, cur + [s[0]])
    case Plain =>
      if s == [] then Some(Token(cur, []))
      else if s[0] == ' ' || s[0] == '\n' || s[0] == '\r' || s[0] == '\t' then Some(Token(cur, s[1..]))
      else if s[0] == '"' then ReadToken(s[1..], Double, cur)
      else if s[0] == '\'' then ReadToken(s[1..], Single, cur)
      else ReadToken(s[1..], Plain, cur + [s[0]])
  }

  /** sdssplitargs; None stands for unbalanced or badly closed quotes. */
  function SplitArgs(s: string): Option<seq<string>>
    decreases |s|
  {
    if s == [] then Some([])
    else if IsSpace(s[0]) then SplitArgs(s[1..])
    else
      var token := ReadToken(s, Plain, []);
      if token.None? then None
      else
        var more := SplitArgs(token.value.rest);
        if more.None? then None else Some([token.value.text] + more.value)
  }

  // ---- reading back what was written ----

  /** A character of a bare word: nothing that ends or quotes a token. */
  predicate BareChar(c: char) {
    c != ' ' && c != '\n' && c != '\r' && c != '\t' && c != '"' && c != '\''
  }

  predicate Bare(s: string) { s != [] && !IsSpace(s[0]) && forall i :: 0 <= i < |s| ==> BareChar(s[i]) }

  lemma {:induction false} ReadBare(s: string, rest: string, cur: string)
    requires forall i :: 0 <= i < |s| ==> BareChar(s[i])
    ensures ReadToken(s + rest, Plain, cur) == ReadToken(rest, Plain, cur + s)
    decreases |s|
  {
    if s == [] {
      assert s + rest == rest && cur + s == cur;
    } else {
      assert (s + rest)[1..] == s[1..] + rest;
      assert cur + s == cur + [s[0]] + s[1..];
      ReadBare(s[1..], rest, cur + [s[0]]);
    }
  }

  /** A bare word followed by a blank is one argument. */
  lemma SplitBare(w: string, rest: string)
    requires Bare(w)
    ensures SplitArgs(rest).Some? ==> SplitArgs(w + [' '] + rest) == Some([w] + SplitArgs(rest).value)
    ensures SplitArgs(rest).None? ==> SplitArgs(w + [' '] + rest) == None
  {
    var tail := [' '] + rest;
    assert w + [' '] + rest == w + tail;
    ReadBare(w, tail, []);
    assert [] + w == w && tail[1..] == rest;
    assert ReadToken(tail, Plain, w) == Some(Token(w, rest));
  }

  /** A bare word at the end of the line is the last argument. */
  lemma SplitLast(w: string)
    requires Bare(w)
    ensures SplitArgs(w) == Some([w])
  {
    ReadBare(w, [], []);
    assert w + [] == w && [] + w == w;
    assert ReadToken(w, Plain, []) == Some(Token(w, []));
    assert SplitArgs([]) == Some([]) && BareChar(w[0]);
    var none: seq<string> := [];
    assert [w] + none == [w];
  }

  lemma {:induction false} ReadReprBody(s: string, rest: string, cur: string)
    requires IsBytes(s)
    ensures ReadToken(ReprBody(s) + rest, Double, cur) == ReadToken(rest, Double, cur + s)
    decreases |s|
  {
    hide ReadToken, ReprChar;
    if s == [] {
      assert ReprBody(s) + rest == rest && cur + s == cur;
    } else {
      var tail := ReprBody(s[1..]) + rest;
      assert ReprBody(s) + rest == ReprChar(s[0]) + tail;
      ReadReprChar(s[0], tail, cur);
      ReadReprBody(s[1..], rest, cur + [s[0]]);
      assert cur + s == cur + [s[0]] + s[1..];
    }
  }

  lemma ReadHexEscape(h: char, l: char, tail: string, cur: string)
    requires IsHexDigit(h) && IsHexDigit(l)
    ensures ReadToken(['\\', 'x', h, l] + tail, Double, cur)
         == ReadToken(tail, Double, cur + [(HexValue(h) * 16 + HexValue(l)) as char])
  {
    hide HexValue, Unescape, IsHexDigit;
    var s := ['\\', 'x', h, l] + tail;
    assert s[0] == '\\' && s[1] == 'x' && s[2] == h && s[3] == l && s[4..] == tail;
  }

  lemma ReadEscape(e: char, tail: string, cur: string)
    requires e != 'x'
    ensures ReadToken(['\\', e] + tail, Double, cur) == ReadToken(tail, Double, cur + [Unescape(e)])
  {
    hide HexValue, Unescape, IsHexDigit;
    var s := ['\\', e] + tail;
    assert s[0] == '\\' && s[1] == e && s[2..] == tail;
  }

  lemma ReadPlain(c: char, tail: string, cur: string)
    requires c != '\\' && c != '"'
    ensures ReadToken([c] + tail, Double, cur) == ReadToken(tail, Double, cur + [c])
  {
    hide HexValue, Unescape, IsHexDigit;
    var s := [c] + tail;
    assert s[0] == c && s[1..] == tail;
  }

  lemma ReadReprChar(c: char, tail: string, cur: string)
    requires c as int < 256
    ensures ReadToken(ReprChar(c) + tail, Double, cur) == ReadToken(tail, Double, cur + [c])
  {
    hide ReadToken, HexDigit, HexValue, IsHexDigit;
    if c == '\\' || c == '"' {
      ReadEscape(c, tail, cur);
    } else if c == '\n' {
      ReadEscape('n', tail, cur);
    } else if c == '\r' {
      ReadEscape('r', tail, cur);
    } else if c == '\t' {
      ReadEscape('t', tail, cur);
    } else if c == ALERT {
      ReadEscape('a', tail, cur);
    } else if c == BACKSPACE {
      ReadEscape('b', tail, cur);
    } else if IsPrint(c) {
      ReadPlain(c, tail, cur);
    } else {
      var h, l := HexDigit(c as int % 256 / 16), HexDigit(c as int % 16);
      assert HexValue(h) * 16 + HexValue(l) == c as int;
      ReadHexEscape(h, l, tail, cur);
    }
  }

  /** A quoted string followed by a blank is read back as itself, whatever bytes it holds. */
  lemma SplitRepr(s: string, rest: string)
    requires IsBytes(s)
    ensures SplitArgs(rest).Some? ==> SplitArgs(Repr(s) + [' '] + rest) == Some([s] + SplitArgs(rest).value)
    ensures SplitArgs(rest).None? ==> SplitArgs(Repr(s) + [' '] + rest) == None
  {
    hide HexValue, Unescape, IsHexDigit, ReprBody, IsBytes;
    var tail := ['"', ' '] + rest;
    var body := ReprBody(s) + tail;
    assert Repr(s) + [' '] + rest == ['"'] + body;
    assert (['"'] + body)[1..] == body;
    assert ReadToken(['"'] + body, Plain, []) == ReadToken(body, Double, []);
    ReadReprBody(s, tail, []);
    CloseQuote(rest, s);
    hide ReadToken;
    assert [] + s == s && ([' '] + rest)[1..] == rest;
  }

  lemma CloseQuote(rest: string, cur: string)
    ensures ReadToken(['"', ' '] + rest, Double, cur) == Some(Token(cur, [' '] + rest))
  {
    hide HexValue, Unescape, IsHexDigit;
    assert (['"', ' '] + rest)[1..] == [' '] + rest;
  }

  // ---- which words are read back unchanged ----

  /** Reading never lengthens the text, and quotes and blanks shorten it. */
  lemma {:induction false} ReadShrinks(s: string, q: Quoting, cur: string)
    ensures var r := ReadToken(s, q, cur); r.Some? ==> |r.value.text| <= |cur| + |s|
    ensures var r := ReadToken(s, q, cur); r.Some? && !q.Plain? ==> |r.value.text| < |cur| + |s|
    ensures var r := ReadToken(s, q, cur); r.Some? && |r.value.text| == |cur| + |s| ==> forall i :: 0 <= i < |s| ==> BareChar(s[i])
    decreases |s|
  {
    hide HexValue, Unescape, IsHexDigit, IsSpace;
    match q
    case Double =>
      if |s| >= 4 && s[0] == '\\' && s[1] == 'x' && IsHexDigit(s[2]) && IsHexDigit(s[3]) {
        ReadShrinks(s[4..], Double, cur + [(HexValue(s[2]) * 16 + HexValue(s[3])) as char]);
      } else if |s| >= 2 && s[0] == '\\' {
        ReadShrinks(s[2..], Double, cur + [Unescape(s[1])]);
      } else if s != [] {
        ReadShrinks(s[1..], Double, cur + [s[0]]);
      }
    case Single =>
      if |s| >= 2 && s[0] == '\\' && s[1] == '\'' {
        ReadShrinks(s[2..], Single, cur + ['\'']);
      } else if s != [] {
        ReadShrinks(s[1..], Single, cur + [s[0]]);
      }
    case Plain =>
      if s != [] {
        ReadShrinks(s[1..], Double, cur);
        ReadShrinks(s[1..], Single, cur);
        ReadShrinks(s[1..], Plain, cur + [s[0]]);
      }
  }

  /** No argument is longer than the text, and one as long as the text is the bare text itself. */
  lemma {:induction false} SplitShrinks(s: string)
    ensures SplitArgs(s).Some? ==> forall w <- SplitArgs(s).value :: |w| <= |s| && (|w| == |s| ==> Bare(s))
    decreases |s|
  {
    hide ReadToken;
    if s != [] {
      if IsSpace(s[0]) {
        SplitShrinks(s[1..]);
      } else {
        ReadShrinks(s, Plain, []);
        var token := ReadToken(s, Plain, []);
        if token.Some? {
          SplitShrinks(token.value.rest);
        }
      }
    }
  }

  /** A text is one of its own arguments exactly when it is a bare word, and then it is the only one. */
  lemma SplitSelfIff(w: string)
    requires w != []
    ensures SplitArgs(w) == Some([w]) <==> Bare(w)
    ensures SplitArgs(w).Some? && w in SplitArgs(w).value ==> Bare(w)
  {
    if Bare(w) {
      SplitLast(w);
    } else {
      SplitShrinks(w);
    }
  }

  // ---- the text itself ----

  /** The escapes of sdscatrepr: a letter for six characters, two hexadecimal digits for what does not print. */
  lemma EscapesAre()
    ensures ReprChar('\n') == ['\\', 'n'] && ReprChar('\r') == ['\\', 'r'] && ReprChar('\t') == ['\\', 't']
    ensures ReprChar(7 as char) == ['\\', 'a'] && ReprChar(8 as char) == ['\\', 'b']
    ensures ReprChar('\\') == ['\\', '\\'] && ReprChar('"') == ['\\', '"']
    ensures forall c: char :: 32 <= c as int < 127 && c != '\\' && c != '"' ==> ReprChar(c) == [c]
    ensures forall c: char :: 127 <= c as int < 256 ==> |ReprChar(c)| == 4 && ReprChar(c)[..2] == ['\\', 'x']
    ensures ReprChar(0 as char) == ['\\', 'x', '0', '0'] && ReprChar(255 as char) == ['\\', 'x', 'f', 'f']
  {
    assert "0123456789abcdef"[0] == '0' && "0123456789abcdef"[15] == 'f';
  }
}
