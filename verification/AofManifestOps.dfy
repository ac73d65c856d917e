/**
  What printing does to names with a quote in them, and the operations that
  change the manifest in place.
  */
module AofManifestOps {
  import opened Wrappers
  import opened Decimal
  import opened SdsText
  import opened AofManifest

  // ---- names that are printed unquoted although they hold a quote ----

  lemma {:induction false} ReadKeeps(s: string, q: Quoting, cur: string)
    ensures ReadToken(s, q, cur).Some? ==> cur <= ReadToken(s, q, cur).value.text
    decreases |s|
  {
    hide HexValue, Unescape, IsHexDigit, IsSpace;
    match q
    case Double =>
      if |s| >= 4 && s[0] == '\\' && s[1] == 'x' && IsHexDigit(s[2]) && IsHexDigit(s[3]) {
        ReadKeeps(s[4..], Double, cur + [(HexValue(s[2]) * 16 + HexValue(s[3])) as char]);
      } else if |s| >= 2 && s[0] == '\\' {
        ReadKeeps(s[2..], Double, cur + [Unescape(s[1])]);
      } else if s != [] {
        ReadKeeps(s[1..], Double, cur + [s[0]]);
      }
    case Single =>
      if |s| >= 2 && s[0] == '\\' && s[1] == '\'' {
        ReadKeeps(s[2..], Single, cur + ['\'']);
      } else if s != [] {
        ReadKeeps(s[1..], Single, cur + [s[0]]);
      }
    case Plain =>
      if s != [] {
        ReadKeeps(s[1..], Double, cur);
        ReadKeeps(s[1..], Single, cur);
        ReadKeeps(s[1..], Plain, cur + [s[0]]);
      }
  }

  predicate Unquoted(s: string) { forall i :: 0 <= i < |s| ==> !CharNeedsRepr(s[i]) }

  /** Inside single quotes a name either ends early or swallows the blank after it. */
  lemma {:induction false} SingleSpan(v: string, rest: string, cur: string)
    requires Unquoted(v)
    ensures var r := ReadToken(v + (" " + rest), Single, cur);
            r.Some? ==> cur <= r.value.text &&
                        (' ' in r.value.text[|cur|..] || |r.value.text| < |cur| + |v|)
    decreases |v|
  {
    var s := v + (" " + rest);
    ReadKeeps(s, Single, cur);
    if v == [] {
      assert s[0] == ' ' && s[1..] == rest;
      ReadKeeps(rest, Single, cur + [' ']);
      var r := ReadToken(rest, Single, cur + [' ']);
      assert r.Some? ==> r.value.text[|cur|..][0] == ' ';
    } else {
      assert s[0] == v[0] && s[1..] == v[1..] + (" " + rest) && !CharNeedsRepr(v[0]);
      assert |v| > 1 ==> s[1] == v[1] && !CharNeedsRepr(v[1]);
      if v[0] != '\'' {
        SingleSpan(v[1..], rest, cur + [v[0]]);
        var r := ReadToken(s[1..], Single, cur + [v[0]]);
        assert r.Some? ==> r.value.text[|cur|..][1..] == r.value.text[|cur + [v[0]]|..];
      }
    }
  }

  function FirstQuote(s: string): (k: nat)
    requires '\'' in s
    ensures k < |s| && s[k] == '\'' && forall i :: 0 <= i < k ==> s[i] != '\''
  {
    if s[0] == '\'' then 0 else 1 + FirstQuote(s[1..])
  }

  lemma UnquotedDrop(s: string, k: nat)
    requires Unquoted(s) && k <= |s|
    ensures Unquoted(s[k..])
  {
    hide CharNeedsRepr;
  }

  /** A name with a quote that is printed bare is not read back. */
  lemma QuoteInName(name: string, rest: string)
    requires Unquoted(name) && '\'' in name
    ensures var r := ReadToken(name + (" " + rest), Plain, []); r.Some? ==> r.value.text != name
  {
    var k := FirstQuote(name);
    var u, v := name[..k], name[k + 1..];
    var tail := "'" + (v + (" " + rest));
    assert name + (" " + rest) == u + tail;
    assert forall i :: 0 <= i < |u| ==> BareChar(u[i]);
    assert ' ' !in name;
    hide Unquoted, BareChar;
    ReadBare(u, tail, []);
    assert [] + u == u && tail[1..] == v + (" " + rest);
    assert ReadToken(tail, Plain, u) == ReadToken(v + (" " + rest), Single, u);
    UnquotedDrop(name, k + 1);
    SingleSpan(v, rest, u);
    hide ReadToken;
    var r := ReadToken(tail, Plain, u);
    if r.Some? && ' ' in r.value.text[|u|..] {
      assert ' ' in r.value.text;
    }
  }

  lemma {:induction false} NeverCloses(s: string, cur: string)
    requires '\'' !in s
    ensures ReadToken(s, Single, cur) == None
    decreases |s|
  {
    if s != [] {
      assert s[0] in s && (|s| > 1 ==> s[1] in s);
      NeverCloses(s[1..], cur + [s[0]]);
    }
  }

  /** A quote opened in an unquoted name is closed, if at all, by the last character of the name. */
  lemma {:induction false} SingleCloses(v: string, rest: string, cur: string)
    requires Unquoted(v) && '\'' !in rest
    ensures var r := ReadToken(v + (" " + rest), Single, cur);
            r.Some? ==> v != [] && v[|v| - 1] == '\'' && |r.value.text| < |cur| + |v| && r.value.rest == " " + rest
    decreases |v|
  {
    var s := v + (" " + rest);
    if v == [] {
      assert s == " " + rest;
      NeverCloses(s, cur);
    } else {
      assert s[0] == v[0] && s[1..] == v[1..] + (" " + rest) && !CharNeedsRepr(v[0]);
      assert |v| > 1 ==> s[1] == v[1] && !CharNeedsRepr(v[1]);
      if v[0] != '\'' {
        SingleCloses(v[1..], rest, cur + [v[0]]);
      }
    }
  }

  /** Reading a name with a bare quote fails, or gives a shorter name and goes on after it. */
  lemma QuoteToken(name: string, rest: string)
    requires Unquoted(name) && '\'' in name && '\'' !in rest
    ensures var r := ReadToken(name + (" " + rest), Plain, []);
            r.Some? ==> name[|name| - 1] == '\'' && |r.value.text| < |name| && r.value.rest == " " + rest
  {
    var k := FirstQuote(name);
    var u, v := name[..k], name[k + 1..];
    var tail := "'" + (v + (" " + rest));
    assert name + (" " + rest) == u + tail;
    assert forall i :: 0 <= i < |u| ==> BareChar(u[i]);
    hide Unquoted, BareChar;
    ReadBare(u, tail, []);
    assert [] + u == u && tail[1..] == v + (" " + rest);
    assert ReadToken(tail, Plain, u) == ReadToken(v + (" " + rest), Single, u);
    UnquotedDrop(name, k + 1);
    SingleCloses(v, rest, u);
  }

  /** The arguments of a line after its name. */
  function LaterText(info: Info): string {
    KeyText(SeqKey) + " " + (PrintInt(info.fileSeq) + " " + (KeyText(TypeKey) + " " + ([TypeChar(info.ftype)] + OffsetsText(info))))
  }

  function LaterArgs(info: Info): seq<string> {
    [KeyText(SeqKey), PrintInt(info.fileSeq)] + ([KeyText(TypeKey), [TypeChar(info.ftype)]] + OffsetArgs(info))
  }

  lemma SplitLater(info: Info)
    ensures SplitArgs(LaterText(info)) == Some(LaterArgs(info))
  {
    var number := PrintInt(info.fileSeq);
    var k2, k3 := KeyText(SeqKey), KeyText(TypeKey);
    var tail, args := [TypeChar(info.ftype)] + OffsetsText(info), [[TypeChar(info.ftype)]] + OffsetArgs(info);
    SplitOffsets(info);
    PrintIntBare(info.fileSeq);
    KeysAreBare(SeqKey);
    KeysAreBare(TypeKey);
    hide SplitArgs, PrintInt, OffsetsText, OffsetArgs, Bare, KeyText, TypeChar;
    SplitBare(k3, tail);
    SplitBare(number, k3 + " " + tail);
    SplitBare(k2, number + " " + (k3 + " " + tail));
    assert [k2] + ([number] + ([k3] + args)) == LaterArgs(info);
  }

  lemma LaterHasNoQuote(info: Info)
    ensures '\'' !in LaterText(info)
  {
    PrintIntBare(info.fileSeq);
    PrintIntBare(info.start);
    PrintIntBare(info.end);
    KeysAreBare(SeqKey);
    KeysAreBare(TypeKey);
    KeysAreBare(StartKey);
    KeysAreBare(EndKey);
    NoQuoteInBare(PrintInt(info.fileSeq));
    NoQuoteInBare(PrintInt(info.start));
    NoQuoteInBare(PrintInt(info.end));
    NoQuoteInBare(KeyText(SeqKey));
    NoQuoteInBare(KeyText(TypeKey));
    NoQuoteInBare(KeyText(StartKey));
    NoQuoteInBare(KeyText(EndKey));
    hide KeyText, PrintInt, Bare;
  }

  lemma NoQuoteInBare(s: string)
    requires Bare(s)
    ensures '\'' !in s
  {
  }

  /** How the line of a name with a bare quote splits. */
  lemma BareQuoteSplits(info: Info)
    requires Unquoted(info.name) && '\'' in info.name
    ensures var args := SplitArgs(InfoText(info));
            args.Some? ==> info.name[|info.name| - 1] == '\'' && |args.value| > 1 && |args.value[1]| < |info.name| &&
                           args.value == [KeyText(FileKey), args.value[1]] + LaterArgs(info)
  {
    var name, rest := info.name, LaterText(info);
    KeysAreBare(FileKey);
    assert !CharNeedsRepr(name[0]);
    LaterHasNoQuote(info);
    SplitLater(info);
    hide KeyText, PrintInt, OffsetsText, OffsetArgs, LaterText, LaterArgs, NeedsRepr;
    assert !NeedsRepr(name) by { NotNeeded(name); }
    LineParts(info);
    SplitBare(KeyText(FileKey), name + (" " + rest));
    QuoteToken(name, rest);
    SplitAfter(name, rest);
  }

  lemma NotNeeded(name: string)
    requires Unquoted(name)
    ensures !NeedsRepr(name)
  {
  }

  lemma LineParts(info: Info)
    requires !NeedsRepr(info.name)
    ensures InfoText(info) == KeyText(FileKey) + " " + (info.name + (" " + LaterText(info)))
  {
    hide KeyText, PrintInt, OffsetsText, NeedsRepr;
    assert info.name + " " + LaterText(info) == info.name + (" " + LaterText(info));
  }

  lemma SplitAfter(name: string, rest: string)
    requires name != [] && !IsSpace(name[0])
    requires var r := ReadToken(name + (" " + rest), Plain, []); r.Some? ==> r.value.rest == " " + rest
    ensures var r, args, more := ReadToken(name + (" " + rest), Plain, []), SplitArgs(name + (" " + rest)), SplitArgs(rest);
            args == if r.None? || more.None? then None else Some([r.value.text] + more.value)
  {
    hide ReadToken;
    assert (" " + rest)[1..] == rest;
    assert SplitArgs(" " + rest) == SplitArgs(rest);
  }

  /** The name that is loaded is the second argument, since no later key is the file key. */
  lemma LaterKeepsName(d: Draft, info: Info)
    requires d.start == -1 && d.end == -1
    ensures |LaterArgs(info)| % 2 == 0
    ensures SetFields(d, LaterArgs(info)).Ok? ==> SetFields(d, LaterArgs(info)).value.name == d.name
  {
    var number, t := PrintInt(info.fileSeq), [TypeChar(info.ftype)];
    CStringOfText(t);
    var d2 := d.(fileSeq := Atoi(CString(number)));
    FieldsOfOffsets(d2.(ftype := Some(t[0])), info);
    hide Atoi, PrintInt, OffsetArgs, SetFields, KeyText, TypeChar, CString;
    FieldStep(d2, TypeKey, t, OffsetArgs(info));
    FieldStep(d, SeqKey, number, [KeyText(TypeKey), t] + OffsetArgs(info));
  }

  lemma BareQuoteBreaks(info: Info)
    requires Unquoted(info.name) && '\'' in info.name
    ensures ParseLine(InfoText(info)) != Ok(DraftOf(info))
  {
    BareQuoteSplits(info);
    hide SplitArgs, InfoText, KeyText, LaterArgs, SetFields, CString, Unquoted;
    var args := SplitArgs(InfoText(info));
    if ParseLine(InfoText(info)).Ok? {
      var name := args.value[1];
      LaterKeepsName(NEW_DRAFT.(name := Some(CString(name))), info);
      FieldStep(NEW_DRAFT, FileKey, name, LaterArgs(info));
    }
  }

  lemma BlankIsSkipped(rest: string)
    ensures SplitArgs(" " + rest) == SplitArgs(rest)
  {
    hide ReadToken;
    assert (" " + rest)[1..] == rest;
  }

  lemma NoNameSplits(info: Info)
    requires info.name == []
    ensures SplitArgs(InfoText(info)) == Some([KeyText(FileKey)] + LaterArgs(info))
  {
    KeysAreBare(FileKey);
    hide KeyText, InfoText, LaterText, LaterArgs, NeedsRepr, SplitArgs;
    NotNeeded(info.name);
    SplitLater(info);
    LineParts(info);
    var rest := LaterText(info);
    assert info.name + (" " + rest) == " " + rest;
    BlankIsSkipped(rest);
    SplitBare(KeyText(FileKey), " " + rest);
  }

  /** A line without a name has an odd number of arguments. */
  lemma NoNameBreaks(info: Info)
    requires info.name == []
    ensures ParseLine(InfoText(info)) == Err(BadFormat)
  {
    hide KeyText, InfoText, LaterArgs, SetFields, SplitArgs;
    NoNameSplits(info);
    LaterIsEven(info);
  }

  lemma LaterIsEven(info: Info)
    ensures |LaterArgs(info)| % 2 == 0
  {
    hide KeyText, PrintInt;
  }

  /** Exactly which entries are parsed back from their own line. */
  lemma ParsesBackIff(info: Info)
    requires IsBytes(info.name)
    ensures ParseLine(InfoText(info)) == Ok(DraftOf(info)) <==> Storable(info)
  {
    hide ParseLine, InfoText;
    if info.name == [] {
      NoNameBreaks(info);
    } else if !Quotable(info.name) {
      assert Unquoted(info.name);
      BareQuoteBreaks(info);
    } else {
      ParseQuotable(info);
      CStringIsText(info.name);
    }
  }

  lemma {:induction false} CStringIsText(s: string)
    ensures CString(s) == s <==> 0 as char !in s
  {
    if s != [] {
      CStringIsText(s[1..]);
      assert s == [s[0]] + s[1..];
    }
  }

  // ---- names ----

  function BaseFileName(filename: string, n: nat, rdb: bool): string {
    filename + ("." + (Digits(n) + (if rdb then ".base.rdb" else ".base.aof")))
  }

  function IncrFileName(filename: string, n: nat): string {
    filename + ("." + (Digits(n) + ".incr.aof"))
  }

  lemma SameSuffix(filename: string, m: nat, n: nat, a: string, b: string)
    requires a != [] && b != [] && a[0] == b[0] == '.'
    requires filename + ("." + (Digits(m) + a)) == filename + ("." + (Digits(n) + b))
    ensures m == n && a == b
  {
    var s, t := filename + ("." + (Digits(m) + a)), filename + ("." + (Digits(n) + b));
    assert s[|filename| + 1..] == Digits(m) + a && t[|filename| + 1..] == Digits(n) + b;
    DigitsInjective(m, n, a, b);
  }

  /** File names tell the kind, the sequence number and the format apart. */
  lemma NamesDistinct(filename: string, m: nat, n: nat, r: bool, q: bool)
    ensures BaseFileName(filename, m, r) == BaseFileName(filename, n, q) ==> m == n && r == q
    ensures IncrFileName(filename, m) == IncrFileName(filename, n) ==> m == n
    ensures BaseFileName(filename, m, r) != IncrFileName(filename, n)
  {
    var a, b := if r then ".base.rdb" else ".base.aof", if q then ".base.rdb" else ".base.aof";
    assert ".base.rdb"[6] == 'r' && ".base.aof"[6] == 'a' && a[1] == 'b' && ".incr.aof"[1] == 'i';
    hide Digits;
    if BaseFileName(filename, m, r) == BaseFileName(filename, n, q) {
      SameSuffix(filename, m, n, a, b);
    }
    if IncrFileName(filename, m) == IncrFileName(filename, n) {
      SameSuffix(filename, m, n, ".incr.aof", ".incr.aof");
    }
    if BaseFileName(filename, m, r) == IncrFileName(filename, n) {
      SameSuffix(filename, m, n, a, ".incr.aof");
    }
  }

  lemma SmallDigits()
    ensures Digits(1) == "1" && Digits(2) == "2" && Digits(4) == "4"
  {
  }

  /** Names and lines as the comment at the head of the source shows them. */
  lemma SampleNames()
    ensures BaseFileName("appendonly.aof", 2, true) == "appendonly.aof.2.base.rdb"
    ensures BaseFileName("appendonly.aof", 2, false) == "appendonly.aof.2.base.aof"
    ensures IncrFileName("appendonly.aof", 1) == "appendonly.aof.1.incr.aof"
  {
    SmallDigits();
    hide Digits;
  }

  /** A line of the manifest, word by word. */
  lemma LineIs(info: Info)
    requires Unquoted(info.name)
    ensures InfoText(info) ==
      "file" + " " + (info.name + " " + ("seq" + " " + (PrintInt(info.fileSeq) + " " + ("type" + " " +
        ([match info.ftype case Base => 'b' case Hist => 'h' case Incr => 'i'] + OffsetsText(info))))))
    ensures info.start != -1 && info.end != -1 ==>
      OffsetsText(info) == " " + ("startoffset" + " " + (PrintInt(info.start) + " " + ("endoffset" + " " + PrintInt(info.end))))
    ensures info.start != -1 && info.end == -1 ==> OffsetsText(info) == " " + ("startoffset" + " " + PrintInt(info.start))
    ensures info.start == -1 ==> OffsetsText(info) == []
  {
    NotNeeded(info.name);
    KeyWords();
    hide KeyText, PrintInt, NeedsRepr, Repr;
  }

  lemma KeyWords()
    ensures KeyText(FileKey) == "file" && KeyText(SeqKey) == "seq" && KeyText(TypeKey) == "type"
    ensures KeyText(StartKey) == "startoffset" && KeyText(EndKey) == "endoffset"
  {
  }

  // ---- the operations as functions ----

  function AsHistory(infos: seq<Info>): (r: seq<Info>)
    ensures |r| == |infos| && forall i :: 0 <= i < |r| ==> r[i] == infos[i].(ftype := Hist)
  {
    seq(|infos|, i requires 0 <= i < |infos| => infos[i].(ftype := Hist))
  }

  /** getNewBaseFileNameAndMarkPreAsHistory */
  function WithNewBase(am: Manifest, filename: string, rdb: bool): Manifest
    requires am.currBase >= 0
  {
    var n := am.currBase + 1;
    am.(base := Some(Info(BaseFileName(filename, n, rdb), n, Base, -1, -1)),
        hist := (if am.base.Some? then [am.base.value.(ftype := Hist)] else []) + am.hist,
        currBase := n, dirty := true)
  }

  /** getNewIncrAofName */
  function WithNewIncr(am: Manifest, filename: string, start: int): Manifest
    requires am.currIncr >= 0
  {
    var n := am.currIncr + 1;
    am.(incr := am.incr + [Info(IncrFileName(filename, n), n, Incr, start, -1)], currIncr := n, dirty := true)
  }

  /** markRewrittenIncrAofAsHistory; with an open descriptor the last INCR stays. */
  function WithRewrittenAsHistory(am: Manifest, fdOpen: bool): Manifest {
    if am.incr == [] then am
    else
      var keep := if fdOpen then |am.incr| - 1 else |am.incr|;
      am.(hist := AsHistory(am.incr[..keep]) + am.hist, incr := am.incr[keep..], dirty := true)
  }

  // ---- what every operation keeps ----

  /** The counters are at least as high as any live sequence number. */
  predicate Consistent(am: Manifest) {
    && Typed(am) && Increasing(am.incr, 0)
    && 0 <= LastSeq(am.incr, 0) <= am.currIncr
    && 0 <= am.currBase && (am.base.Some? ==> am.base.value.fileSeq == am.currBase > 0)
  }

  datatype Op = NewBase(rdb: bool) | NewIncr(start: int) | MarkRewritten(fdOpen: bool)

  function Apply(am: Manifest, filename: string, op: Op): Manifest
    requires am.currBase >= 0 && am.currIncr >= 0
  {
    match op
    case NewBase(rdb) => WithNewBase(am, filename, rdb)
    case NewIncr(start) => WithNewIncr(am, filename, start)
    case MarkRewritten(fdOpen) => WithRewrittenAsHistory(am, fdOpen)
  }

  /** An entry without its type, which marking as history changes. */
  function Untyped(infos: seq<Info>): multiset<Info> {
    multiset(AsHistory(infos))
  }

  /** The entry an operation creates, if any. */
  function Created(am: Manifest, filename: string, op: Op): multiset<Info>
    requires am.currBase >= 0 && am.currIncr >= 0
  {
    match op
    case NewBase(rdb) => multiset{Info(BaseFileName(filename, am.currBase + 1, rdb), am.currBase + 1, Hist, -1, -1)}
    case NewIncr(start) => multiset{Info(IncrFileName(filename, am.currIncr + 1), am.currIncr + 1, Hist, start, -1)}
    case MarkRewritten(_) => multiset{}
  }

  lemma UntypedConcat(a: seq<Info>, b: seq<Info>)
    ensures Untyped(a + b) == Untyped(a) + Untyped(b)
  {
    assert AsHistory(a + b) == AsHistory(a) + AsHistory(b);
  }

  lemma UntypedOfHistory(a: seq<Info>)
    ensures Untyped(AsHistory(a)) == Untyped(a)
  {
    assert AsHistory(AsHistory(a)) == AsHistory(a);
  }

  lemma UntypedOne(info: Info)
    ensures Untyped([info]) == multiset{info.(ftype := Hist)}
  {
    assert AsHistory([info]) == [info.(ftype := Hist)];
  }

  function BaseList(am: Manifest): seq<Info> {
    if am.base.Some? then [am.base.value] else []
  }

  lemma EntriesParts(am: Manifest)
    ensures Untyped(Entries(am)) == Untyped(BaseList(am)) + Untyped(am.hist) + Untyped(am.incr)
  {
    hide Untyped;
    UntypedConcat(BaseList(am) + am.hist, am.incr);
    UntypedConcat(BaseList(am), am.hist);
  }

  /** No operation loses or repeats an entry. */
  lemma NothingLost(am: Manifest, filename: string, op: Op)
    requires am.currBase >= 0 && am.currIncr >= 0
    ensures Untyped(Entries(Apply(am, filename, op))) == Untyped(Entries(am)) + Created(am, filename, op)
  {
    hide BaseFileName, IncrFileName, Untyped, Entries;
    var next := Apply(am, filename, op);
    EntriesParts(am);
    EntriesParts(next);
    match op
    case NewBase(rdb) =>
      UntypedConcat(AsHistory(BaseList(am)), am.hist);
      UntypedOfHistory(BaseList(am));
      assert next.hist == AsHistory(BaseList(am)) + am.hist;
      UntypedOne(next.base.value);
    case NewIncr(start) =>
      var info := next.incr[|am.incr|];
      UntypedConcat(am.incr, [info]);
      UntypedOne(info);
    case MarkRewritten(fdOpen) =>
      if am.incr != [] {
        var keep := if fdOpen then |am.incr| - 1 else |am.incr|;
        UntypedConcat(AsHistory(am.incr[..keep]), am.hist);
        UntypedOfHistory(am.incr[..keep]);
        UntypedConcat(am.incr[..keep], am.incr[keep..]);
        assert am.incr[..keep] + am.incr[keep..] == am.incr;
      }
  }

  lemma ApplyKeeps(am: Manifest, filename: string, op: Op)
    requires Consistent(am)
    ensures Consistent(Apply(am, filename, op))
  {
    hide BaseFileName, IncrFileName;
  }

  function Run(am: Manifest, filename: string, ops: seq<Op>): Manifest
    requires Consistent(am)
    ensures Consistent(Run(am, filename, ops))
    decreases |ops|
  {
    if ops == [] then am
    else
      ApplyKeeps(am, filename, ops[0]);
      Run(Apply(am, filename, ops[0]), filename, ops[1..])
  }

  function AllCreated(am: Manifest, filename: string, ops: seq<Op>): multiset<Info>
    requires Consistent(am)
    decreases |ops|
  {
    if ops == [] then multiset{}
    else
      ApplyKeeps(am, filename, ops[0]);
      Created(am, filename, ops[0]) + AllCreated(Apply(am, filename, ops[0]), filename, ops[1..])
  }

  /** Over any sequence of operations every entry is still listed exactly once. */
  lemma {:induction false} NothingLostOverRuns(am: Manifest, filename: string, ops: seq<Op>)
    requires Consistent(am)
    ensures Untyped(Entries(Run(am, filename, ops))) == Untyped(Entries(am)) + AllCreated(am, filename, ops)
    decreases |ops|
  {
    hide Untyped, Entries, Created, Typed, Increasing;
    if ops != [] {
      ApplyKeeps(am, filename, ops[0]);
      NothingLost(am, filename, ops[0]);
      NothingLostOverRuns(Apply(am, filename, ops[0]), filename, ops[1..]);
    }
  }

  // ---- the operations in place ----

  lemma AsHistoryFrom(all: seq<Info>, i: nat, keep: nat)
    requires i < keep <= |all|
    ensures AsHistory(all[i..keep]) == [all[i].(ftype := Hist)] + AsHistory(all[i + 1..keep])
  {
    assert all[i..keep][1..] == all[i + 1..keep];
  }

  lemma NoHistory(all: seq<Info>, i: nat)
    requires i <= |all|
    ensures AsHistory(all[i..i]) == []
  {
  }

  /** aofManifest, with its two lists. */
  class ManifestObject {
    var base: Option<Info>
    var hist: seq<Info>
    var incr: seq<Info>
    var currBase: nat
    var currIncr: nat
    var dirty: bool

    function Snapshot(): Manifest
      reads this
    {
      Manifest(base, hist, incr, currBase, currIncr, dirty)
    }

    /** aofManifestCreate */
    constructor ()
      ensures Snapshot() == EMPTY
    {
      base, hist, incr, currBase, currIncr, dirty := None, [], [], 0, 0, false;
    }

    /** aofManifestDup */
    constructor Dup(orig: ManifestObject)
      ensures Snapshot() == orig.Snapshot()
    {
      base, hist, incr := orig.base, orig.hist, orig.incr;
      currBase, currIncr, dirty := orig.currBase, orig.currIncr, orig.dirty;
    }

    method NewBase(filename: string, rdb: bool) returns (name: string)
      modifies this
      ensures Snapshot() == WithNewBase(old(Snapshot()), filename, rdb)
      ensures currBase == old(currBase) + 1 && name == BaseFileName(filename, currBase, rdb)
      ensures base == Some(Info(name, currBase, Base, -1, -1)) && incr == old(incr) && currIncr == old(currIncr) && dirty
      ensures hist == (if old(base).Some? then [old(base).value.(ftype := Hist)] else []) + old(hist)
    {
      if base.Some? {
        hist := [base.value.(ftype := Hist)] + hist;
      }
      currBase := currBase + 1;
      name := BaseFileName(filename, currBase, rdb);
      base := Some(Info(name, currBase, Base, -1, -1));
      dirty := true;
    }

    method NewIncr(filename: string, start: int) returns (name: string)
      modifies this
      ensures Snapshot() == WithNewIncr(old(Snapshot()), filename, start)
      ensures currIncr == old(currIncr) + 1 && name == IncrFileName(filename, currIncr)
      ensures incr == old(incr) + [Info(name, currIncr, Incr, start, -1)] && base == old(base) && hist == old(hist) && dirty
    {
      currIncr := currIncr + 1;
      name := IncrFileName(filename, currIncr);
      incr := incr + [Info(name, currIncr, Incr, start, -1)];
      dirty := true;
    }

    /** getLastIncrAofName: the last INCR, or a new one if there is none. */
    method LastIncr(filename: string, replOffset: int) returns (name: string)
      modifies this
      ensures Snapshot() == if old(incr) == [] then WithNewIncr(old(Snapshot()), filename, replOffset) else old(Snapshot())
      ensures incr != [] && name == incr[|incr| - 1].name
    {
      if incr == [] {
        name := NewIncr(filename, replOffset);
      } else {
        name := incr[|incr| - 1].name;
      }
    }

    /** Walks the INCR list from its tail, moving each node to the head of the history list. */
    method MarkRewritten(fdOpen: bool)
      modifies this
      ensures Snapshot() == WithRewrittenAsHistory(old(Snapshot()), fdOpen)
      ensures var keep := if !fdOpen then |old(incr)| else if old(incr) == [] then 0 else |old(incr)| - 1;
        && incr == old(incr)[keep..] && base == old(base)
        && |hist| == keep + |old(hist)| && hist[keep..] == old(hist)
        && forall i :: 0 <= i < keep ==> hist[i] == old(incr)[i].(ftype := Hist)
    {
      if incr == [] {
        return;
      }
      ghost var all, past := incr, hist;
      var i := |incr|;
      if fdOpen {
        i := i - 1;
      }
      ghost var keep := i;
      hide AsHistory;
      NoHistory(all, i);
      while i > 0
        invariant 0 <= i <= keep <= |all|
        invariant incr == all[..i] + all[keep..]
        invariant hist == AsHistory(all[i..keep]) + past
        invariant base == old(base) && currBase == old(currBase) && currIncr == old(currIncr)
      {
        i := i - 1;
        var ai := incr[i];
        AsHistoryFrom(all, i, keep);
        hist := [ai.(ftype := Hist)] + hist;
        incr := incr[..i] + incr[i + 1..];
      }
      assert all[0..keep] == all[..keep] && all[..0] + all[keep..] == all[keep..];
      dirty := true;
    }
  }

  /** getAofManifestAsString */
  method PrintManifest(am: Manifest) returns (buf: string)
    ensures buf == Lines(Entries(am))
  {
    hide InfoText;
    buf := "";
    if am.base.Some? {
      buf := buf + (InfoText(am.base.value) + "\n");
    }
    ghost var start := buf;
    for i := 0 to |am.hist|
      invariant buf == start + Lines(am.hist[..i])
    {
      LinesAppend(am.hist[..i], am.hist[i]);
      assert am.hist[..i + 1] == am.hist[..i] + [am.hist[i]];
      buf := buf + (InfoText(am.hist[i]) + "\n");
    }
    assert am.hist[..|am.hist|] == am.hist;
    ghost var middle := buf;
    for i := 0 to |am.incr|
      invariant buf == middle + Lines(am.incr[..i])
    {
      LinesAppend(am.incr[..i], am.incr[i]);
      assert am.incr[..i + 1] == am.incr[..i] + [am.incr[i]];
      buf := buf + (InfoText(am.incr[i]) + "\n");
    }
    assert am.incr[..|am.incr|] == am.incr;
    LinesConcat(BaseList(am), am.hist);
    LinesConcat(BaseList(am) + am.hist, am.incr);
  }

  lemma {:induction false} LinesConcat(a: seq<Info>, b: seq<Info>)
    ensures Lines(a + b) == Lines(a) + Lines(b)
    decreases |a|
  {
    hide InfoText;
    if a == [] {
      assert a + b == b;
    } else {
      assert (a + b)[1..] == a[1..] + b;
      LinesConcat(a[1..], b);
    }
  }

  lemma LinesAppend(a: seq<Info>, info: Info)
    ensures Lines(a + [info]) == Lines(a) + (InfoText(info) + "\n")
  {
    hide InfoText;
    LinesConcat(a, [info]);
    assert Lines([info][1..]) == "";
  }

  /** aofLoadManifestFromFile: reads line by line until the text ends or a line is refused. */
  method LoadManifest(text: string) returns (r: Result<Manifest, LoadError>)
    ensures r == Load(text)
  {
    hide LoadLine, Chunk;
    if text == [] {
      return Err(EmptyManifest);
    }
    var am, maxSeq, pos := EMPTY, 0, 0;
    assert text[0..] == text;
    while pos < |text|
      invariant 0 <= pos <= |text|
      invariant LoadRest(text[pos..], am, maxSeq) == Load(text)
    {
      var n := Chunk(text[pos..], MANIFEST_MAX_LINE);
      assert text[pos..][n..] == text[pos + n..] && text[pos..][..n] == text[pos..pos + n];
      var next := LoadLine(text[pos..pos + n], am, maxSeq);
      if next.Err? {
        return Err(next.error);
      }
      am, maxSeq, pos := next.value.0, next.value.1, pos + n;
    }
    return Ok(am);
  }
}
