/**
  The text of commands in the append-only file: how they are written, and how
  one command is read with fgets and fread.
  */
module AofText {
  import opened Wrappers
  import opened Decimal
  import opened AofManifest

  type Argv = seq<string>

  const LINE_MAX: nat := 1024

  // ---- writing ----

  function Header(c: char, n: nat): string { [c] + Digits(n) + ['\r', '\n'] }

  function ArgText(arg: string): string { Header('$', |arg|) + arg + ['\r', '\n'] }

  function ArgsText(argv: Argv): string { if argv == [] then [] else ArgText(argv[0]) + ArgsText(argv[1..]) }

  /** catAppendOnlyGenericCommand */
  function CommandText(argv: Argv): string { Header('*', |argv|) + ArgsText(argv) }

  /** What the C integers of the writer can hold. */
  ghost predicate Writable(argv: Argv) {
    0 < |argv| < 0x8000_0000 && forall i :: 0 <= i < |argv| ==> |argv[i]| < 0x8000_0000_0000_0000
  }

  // ---- reading ----

  /** The outcome of reading: `used` characters were read. */
  datatype Reading<T> = Read(value: T, used: nat) | Short | Bad

  /** fgets */
  function Line(s: string): (line: string)
    requires s != []
    ensures 0 < |line| <= |s| && line == s[..|line|]
  {
    s[..Chunk(s, LINE_MAX - 1)]
  }

  /** fgets has looked past the last character of the file. */
  predicate HitsEnd(line: string, s: string)
    requires line != []
  {
    |line| == |s| && |line| < LINE_MAX - 1 && line[|line| - 1] != '\n'
  }

  /** One argument: its length line, its bytes, and two bytes that are dropped. */
  function ReadArg(s: string): (r: Reading<string>)
    ensures r.Read? ==> 0 < r.used <= |s|
  {
    if s == [] then Short
    else
      var line := Line(s);
      if line[0] != '$' then Bad
      else
        var len, at := Atoi(line[1..]), |line|;
        if len < 0 then Bad // taken as an unsigned size, which no allocation can satisfy
        else if at + len + 2 > |s| then Short
        else Read(s[at..at + len], at + len + 2)
  }

  function ReadArgs(s: string, argc: nat): (r: Reading<Argv>)
    ensures r.Read? ==> r.used <= |s|
    decreases argc
  {
    if argc == 0 then Read([], 0)
    else
      var arg := ReadArg(s);
      match arg
      case Short => Short
      case Bad => Bad
      case Read(value, used) =>
        match ReadArgs(s[used..], argc - 1)
        case Short => Short
        case Bad => Bad
        case Read(more, n) => Read([value] + more, used + n)
  }

  /** One entry of the file: a command, or an annotation line, which gives no command. */
  function ReadEntry(s: string): (r: Reading<Option<Argv>>)
    requires s != []
    ensures r.Read? ==> 0 < r.used <= |s|
  {
    var line := Line(s);
    if line[0] == '#' then Read(None, |line|)
    else if line[0] != '*' then Bad
    else if |line| == 1 then Short
    else if line[1] == 0 as char then if HitsEnd(line, s) then Short else Bad
    else if Atoi(line[1..]) < 1 then Bad
    else
      match ReadArgs(s[|line|..], Atoi(line[1..]))
      case Short => Short
      case Bad => Bad
      case Read(argv, n) => Read(Some(argv), |line| + n)
  }

  // ---- numbers on a line ----

  lemma HeaderShort(c: char, n: nat)
    requires n < 0x8000_0000_0000_0000
    ensures |Header(c, n)| <= 23
  {
    BigPow();
    DigitsLength(n, 20);
  }

  lemma DigitsPlain(n: nat)
    ensures '\n' !in Digits(n) && 0 as char !in Digits(n)
  {
    var s := Digits(n);
    assert forall i :: 0 <= i < |s| ==> IsDigit(s[i]);
  }

  /** A header line is read as a line, and gives its number. */
  lemma HeaderLine(c: char, n: nat, rest: string)
    requires n < 0x8000_0000_0000_0000 && c != '\n'
    ensures var s := Header(c, n) + rest;
      Line(s) == Header(c, n) && Atoi(Line(s)[1..]) == n && Line(s)[1] != 0 as char
  {
    HeaderShort(c, n);
    DigitsPlain(n);
    var line := [c] + Digits(n) + ['\r'];
    var s := Header(c, n) + rest;
    assert s == line + ("\n" + rest);
    assert '\n' !in line;
    ChunkOfLine(line, rest, LINE_MAX - 1);
    assert s[..|line| + 1] == Header(c, n);
    assert Header(c, n)[1..] == Digits(n) + ['\r', '\n'];
    AtoiOfDigits(n, ['\r', '\n']);
    assert Header(c, n)[1] == Digits(n)[0];
  }

  lemma ArgReads(arg: string, rest: string)
    requires |arg| < 0x8000_0000_0000_0000
    ensures ReadArg(ArgText(arg) + rest) == Read(arg, |ArgText(arg)|)
  {
    hide Line, Digits, Atoi;
    var s := ArgText(arg) + rest;
    var tail := arg + ['\r', '\n'] + rest;
    assert s == Header('$', |arg|) + tail;
    HeaderLine('$', |arg|, tail);
    var at := |Header('$', |arg|)|;
    assert s[at..at + |arg|] == arg;
  }

  lemma {:induction false} ArgsRead(argv: Argv, rest: string)
    requires forall i :: 0 <= i < |argv| ==> |argv[i]| < 0x8000_0000_0000_0000
    ensures ReadArgs(ArgsText(argv) + rest, |argv|) == Read(argv, |ArgsText(argv)|)
    decreases |argv|
  {
    hide ReadArg, ArgText;
    if argv != [] {
      var s, tail := ArgsText(argv) + rest, ArgsText(argv[1..]) + rest;
      assert s == ArgText(argv[0]) + tail;
      ArgReads(argv[0], tail);
      assert s[|ArgText(argv[0])|..] == tail;
      ArgsRead(argv[1..], rest);
      assert [argv[0]] + argv[1..] == argv;
    }
  }

  /** A written command is read back, whatever its arguments hold and whatever follows. */
  lemma CommandReads(argv: Argv, rest: string)
    requires Writable(argv)
    ensures CommandText(argv) != [] && ReadEntry(CommandText(argv) + rest) == Read(Some(argv), |CommandText(argv)|)
  {
    hide Line, Digits, Atoi, ReadArgs, ArgsText;
    var s, tail := CommandText(argv) + rest, ArgsText(argv) + rest;
    assert s == Header('*', |argv|) + tail;
    HeaderLine('*', |argv|, tail);
    assert s[|Header('*', |argv|)|..] == tail;
    ArgsRead(argv, rest);
  }

  // ---- a command that is cut short ----

  /** A text without a line end is one line. */
  lemma {:induction false} ChunkAll(s: string, limit: nat)
    requires s != [] && |s| <= limit && forall i :: 0 <= i < |s| - 1 ==> s[i] != '\n'
    ensures Chunk(s, limit) == |s|
    decreases |s|
  {
    if |s| > 1 {
      ChunkAll(s[1..], limit - 1);
    }
  }

  lemma CutLine(c: char, n: nat, k: nat)
    requires 0 < k < |Header(c, n)| && c != '\n' && n < 0x8000_0000_0000_0000
    ensures var s := Header(c, n)[..k]; s != [] && Line(s) == s && s[0] == c
  {
    HeaderShort(c, n);
    DigitsPlain(n);
    hide Digits;
    var s, d := Header(c, n)[..k], Digits(n);
    assert forall i :: 0 <= i < |d| ==> d[i] in d;
    assert forall i :: 0 <= i < |s| - 1 ==> s[i] != '\n';
    ChunkAll(s, LINE_MAX - 1);
    assert s[..|s|] == s;
  }

  /** What is read as a number from a cut header line: zero only if no digit is left. */
  lemma CutNumber(c: char, n: nat, k: nat)
    requires 0 < k < |Header(c, n)| && c != '\n' && n < 0x8000_0000_0000_0000
    ensures var s := Header(c, n)[..k];
      && s != [] && Line(s) == s && s[0] == c && Atoi(s[1..]) >= 0
      && (n > 0 && k > 1 ==> Atoi(s[1..]) >= 1 && s[1] != 0 as char)
  {
    CutLine(c, n, k);
    DigitsPlain(n);
    hide Digits, Atoi, Line;
    var s, d := Header(c, n)[..k], Digits(n);
    assert k > 1 ==> s[1] == d[0] && d[0] in d;
    if k - 1 <= |d| {
      assert s[1..] == d[..k - 1];
      CutDigits(n, k - 1);
    } else {
      assert s[1..] == d + ['\r'];
      AtoiOfDigits(n, ['\r']);
    }
  }

  lemma CutDigits(n: nat, k: nat)
    requires k <= |Digits(n)|
    ensures Atoi(Digits(n)[..k]) >= 0 && (n > 0 && k > 0 ==> Atoi(Digits(n)[..k]) >= 1)
  {
    var s := Digits(n)[..k];
    assert AllDigits(s);
    if k > 0 {
      DigitRunStops(s, []);
      assert s + [] == s && s[..|s|] == s;
      assert IsDigit(s[0]);
      if n > 0 {
        LeadingDigit(n);
        ValueAtLeast(s);
      }
    }
  }

  lemma {:induction false} LeadingDigit(n: nat)
    requires n > 0
    ensures Digits(n)[0] != '0'
  {
    if n >= 10 {
      LeadingDigit(n / 10);
    }
  }

  lemma {:induction false} ValueAtLeast(s: string)
    requires s != [] && AllDigits(s) && s[0] != '0'
    ensures Value(s) >= 1
    decreases |s|
  {
    if |s| > 1 {
      ValueAtLeast(s[..|s| - 1]);
    } else {
      assert s[..0] == [];
    }
  }

  lemma CutArg(arg: string, k: nat)
    requires |arg| < 0x8000_0000_0000_0000 && k < |ArgText(arg)|
    ensures ReadArg(ArgText(arg)[..k]) == Short
  {
    hide Line, Digits, Atoi;
    var head := Header('$', |arg|);
    var s := ArgText(arg)[..k];
    if 0 < k < |head| {
      assert s == head[..k];
      CutNumber('$', |arg|, k);
    } else if k >= |head| {
      var tail := (arg + ['\r', '\n'])[..k - |head|];
      assert s == head + tail;
      HeaderLine('$', |arg|, tail);
    }
  }

  lemma {:induction false} CutArgs(argv: Argv, k: nat)
    requires forall i :: 0 <= i < |argv| ==> |argv[i]| < 0x8000_0000_0000_0000
    requires k < |ArgsText(argv)|
    ensures ReadArgs(ArgsText(argv)[..k], |argv|) == Short
    decreases |argv|
  {
    hide ReadArg, ArgText;
    var s, n := ArgsText(argv)[..k], |ArgText(argv[0])|;
    if k < n {
      assert s == ArgText(argv[0])[..k];
      CutArg(argv[0], k);
    } else {
      var tail := ArgsText(argv[1..])[..k - n];
      assert s == ArgText(argv[0]) + tail;
      ArgReads(argv[0], tail);
      assert s[n..] == tail;
      CutArgs(argv[1..], k - n);
    }
  }

  /** A command that is cut anywhere reads as cut short, never as another command and never as bad. */
  lemma CutCommand(argv: Argv, k: nat)
    requires Writable(argv) && 0 < k < |CommandText(argv)|
    ensures ReadEntry(CommandText(argv)[..k]) == Short
  {
    hide Line, Digits, Atoi, ReadArgs, ArgsText;
    var head := Header('*', |argv|);
    var s := CommandText(argv)[..k];
    if k < |head| {
      assert s == head[..k];
      CutNumber('*', |argv|, k);
      if k > 1 {
        assert s[k..] == [];
        NoArgs(Atoi(s[1..]));
      }
    } else {
      var tail := ArgsText(argv)[..k - |head|];
      assert s == head + tail;
      HeaderLine('*', |argv|, tail);
      assert s[|head|..] == tail;
      CutArgs(argv, k - |head|);
    }
  }

  lemma NoArgs(argc: nat)
    requires argc > 0
    ensures ReadArgs([], argc) == Short
  {
  }

  // ---- the text itself ----

  /** A command as the protocol writes it. */
  lemma SampleCommand()
    ensures CommandText(["GET", "k"]) == "*2\r\n$3\r\nGET\r\n$1\r\nk\r\n"
  {
    OneDigit(1);
    OneDigit(2);
    OneDigit(3);
    assert Digits(1) == "1" && Digits(2) == "2" && Digits(3) == "3";
    TwoArgs("GET", "k");
    hide Digits, ArgsText;
  }

  lemma OneDigit(n: nat)
    requires n < 10
    ensures Digits(n) == [('0' as int + n) as char]
  {
  }

  lemma TwoArgs(a: string, b: string)
    ensures ArgsText([a, b]) == ArgText(a) + ArgText(b)
  {
    hide ArgText;
    assert [a, b][1..] == [b] && [b][1..] == [];
    assert ArgsText([b]) == ArgText(b);
  }

  /** A line that starts with a hash is an annotation and gives no command. */
  lemma AnnotationIsSkipped(w: string, rest: string)
    requires '\n' !in w && |w| < LINE_MAX - 2
    ensures ReadEntry("#" + w + "\n" + rest) == Read(None, |w| + 2)
  {
    var line := "#" + w;
    assert "#" + w + "\n" + rest == line + ("\n" + rest);
    ChunkOfLine(line, rest, LINE_MAX - 1);
    hide ReadArgs, Atoi;
  }

  /** Anything else that is no command is an error of the format. */
  lemma OtherIsBad(s: string)
    requires s != [] && s[0] != '#' && s[0] != '*'
    ensures ReadEntry(s) == Bad
  {
    hide ReadArgs, Atoi;
  }
}
