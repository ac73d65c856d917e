/**
  The manifest over whole runs: whatever the mutators do from an empty manifest on, the
  printed file loads again, exactly if the configured file name can be printed bare.
  */
module AofManifestRuns {
  import opened Wrappers
  import opened Decimal
  import opened SdsText
  import opened AofManifest
  import opened AofManifestOps

  const LONG_MAX: int := 0x7fff_ffff_ffff_ffff

  predicate IsLong(n: int) { -LONG_MAX - 1 <= n <= LONG_MAX }

  /** What isValidAOFfilename lets pass, short enough for a manifest line. */
  predicate ConfigName(filename: string) {
    && filename != [] && IsBytes(filename) && IsBaseName(filename) && 0 as char !in filename
    && |NameText(filename)| <= 900
  }

  /** The name is built from the configured one, and the numbers are those of the C type. */
  predicate Named(filename: string, most: nat, info: Info) {
    && 1 <= info.fileSeq <= most && info.end == -1 && IsLong(info.start)
    && (|| info.name == BaseFileName(filename, info.fileSeq, true)
        || info.name == BaseFileName(filename, info.fileSeq, false)
        || info.name == IncrFileName(filename, info.fileSeq))
  }

  predicate AllNamed(filename: string, most: nat, am: Manifest) {
    && (am.base.Some? ==> Named(filename, most, am.base.value))
    && (forall i :: 0 <= i < |am.hist| ==> Named(filename, most, am.hist[i]))
    && (forall i :: 0 <= i < |am.incr| ==> Named(filename, most, am.incr[i]))
    && 0 <= am.currBase <= most && 0 <= am.currIncr <= most
  }

  predicate LongOffsets(ops: seq<Op>) { forall i :: 0 <= i < |ops| && ops[i].NewIncr? ==> IsLong(ops[i].start) }

  lemma ApplyNames(am: Manifest, filename: string, op: Op, most: nat)
    requires AllNamed(filename, most, am) && (op.NewIncr? ==> IsLong(op.start))
    ensures AllNamed(filename, most + 1, Apply(am, filename, op))
  {
    hide BaseFileName, IncrFileName;
  }

  lemma {:induction false} RunNames(am: Manifest, filename: string, ops: seq<Op>, most: nat)
    requires Consistent(am) && AllNamed(filename, most, am) && LongOffsets(ops)
    ensures AllNamed(filename, most + |ops|, Run(am, filename, ops))
    decreases |ops|
  {
    hide AllNamed, Typed, Increasing, Apply;
    if ops != [] {
      ApplyKeeps(am, filename, ops[0]);
      ApplyNames(am, filename, ops[0], most);
      RunNames(Apply(am, filename, ops[0]), filename, ops[1..], most + 1);
    }
  }

  lemma EntryNamed(filename: string, most: nat, am: Manifest, k: nat)
    requires AllNamed(filename, most, am) && k < |Entries(am)|
    ensures Named(filename, most, Entries(am)[k])
  {
    hide Named;
    var base := if am.base.Some? then [am.base.value] else [];
    if k >= |base| && k < |base| + |am.hist| {
      assert Entries(am)[k] == am.hist[k - |base|];
    } else if k >= |base| {
      assert Entries(am)[k] == am.incr[k - |base| - |am.hist|];
    }
  }

  // ---- the lines are short ----

  lemma PrintedShort(n: int)
    requires IsLong(n)
    ensures |PrintInt(n)| <= 21
  {
    BigPow();
    hide Digits, Pow10;
    DigitsLength(if n < 0 then -n else n, 20);
  }

  // ---- the names ----

  /** A text that repr writes as it is. */
  predicate Plainly(s: string) { forall i :: 0 <= i < |s| ==> ReprChar(s[i]) == [s[i]] && !CharNeedsRepr(s[i]) && s[i] != '\'' }

  lemma {:induction false} ReprPlain(b: string)
    requires Plainly(b)
    ensures ReprBody(b) == b
    decreases |b|
  {
    hide ReprChar, CharNeedsRepr;
    if b != [] {
      ReprPlain(b[1..]);
      assert [b[0]] + b[1..] == b;
    }
  }

  lemma {:induction false} ReprOfPlain(a: string, b: string)
    requires Plainly(b)
    ensures ReprBody(a + b) == ReprBody(a) + b
    decreases |a|
  {
    hide ReprChar, CharNeedsRepr, Plainly;
    if a == [] {
      assert a + b == b;
      ReprPlain(b);
    } else {
      assert (a + b)[1..] == a[1..] + b && (a + b)[0] == a[0];
      ReprOfPlain(a[1..], b);
      assert ReprChar(a[0]) + (ReprBody(a[1..]) + b) == ReprChar(a[0]) + ReprBody(a[1..]) + b;
    }
  }

  lemma NameGrows(a: string, b: string)
    requires Plainly(b)
    ensures NeedsRepr(a + b) <==> NeedsRepr(a)
    ensures |NameText(a + b)| == |NameText(a)| + |b|
    ensures '\'' in a + b <==> '\'' in a
  {
    ReprOfPlain(a, b);
    hide ReprChar, CharNeedsRepr, ReprBody;
    if NeedsRepr(a) {
      var i :| 0 <= i < |a| && CharNeedsRepr(a[i]);
      assert (a + b)[i] == a[i];
    }
    if NeedsRepr(a + b) {
      var i :| 0 <= i < |a + b| && CharNeedsRepr((a + b)[i]);
      assert i < |a|;
    }
  }

  function Suffix(n: nat, kind: string): string { "." + (Digits(n) + kind) }

  predicate IsKind(kind: string) { kind == ".base.rdb" || kind == ".base.aof" || kind == ".incr.aof" }

  lemma NamedSuffix(filename: string, most: nat, info: Info) returns (kind: string)
    requires Named(filename, most, info)
    ensures IsKind(kind) && info.name == filename + Suffix(info.fileSeq, kind)
  {
    hide Digits;
    kind := if info.name == BaseFileName(filename, info.fileSeq, true) then ".base.rdb"
            else if info.name == BaseFileName(filename, info.fileSeq, false) then ".base.aof" else ".incr.aof";
  }

  lemma SuffixPlain(n: nat, kind: string)
    requires IsKind(kind)
    ensures Plainly(Suffix(n, kind)) && IsBaseName(Suffix(n, kind)) && 0 as char !in Suffix(n, kind)
    ensures |Suffix(n, kind)| == |Digits(n)| + 10 && Suffix(n, kind)[|Digits(n)| + 9] != '\''
  {
    var d, s := Digits(n), Suffix(n, kind);
    hide Digits;
    forall i | 0 <= i < |s| ensures ReprChar(s[i]) == [s[i]] && !CharNeedsRepr(s[i]) && s[i] != '\'' && s[i] != '/' && s[i] != '\\' && s[i] != 0 as char {
      if 1 <= i <= |d| {
        assert s[i] == d[i - 1];
      }
    }
  }

  lemma NamedIsStorable(filename: string, most: nat, info: Info)
    requires ConfigName(filename) && Named(filename, most, info) && (NeedsRepr(filename) || '\'' !in filename)
    ensures Storable(info)
  {
    var kind := NamedSuffix(filename, most, info);
    var suffix := Suffix(info.fileSeq, kind);
    SuffixPlain(info.fileSeq, kind);
    hide Named, Suffix, NameText;
    NameGrows(filename, suffix);
    hide NeedsRepr;
    assert IsBytes(suffix);
  }

  lemma NamedIsShort(filename: string, most: nat, info: Info)
    requires ConfigName(filename) && Named(filename, most, info) && most <= LONG_MAX
    ensures |InfoText(info)| < MANIFEST_MAX_LINE
  {
    var kind := NamedSuffix(filename, most, info);
    SuffixPlain(info.fileSeq, kind);
    PrintedShort(info.fileSeq);
    PrintedShort(info.start);
    hide Suffix, NameText, NeedsRepr, PrintInt, Digits, IsBytes, IsBaseName;
    NameGrows(filename, Suffix(info.fileSeq, kind));
    assert |Digits(info.fileSeq)| <= 21 by { PrintedDigits(info.fileSeq); }
  }

  lemma PrintedDigits(n: nat)
    ensures PrintInt(n) == Digits(n)
  {
  }

  // ---- runs ----

  lemma EntriesPrint(filename: string, most: nat, am: Manifest)
    requires ConfigName(filename) && AllNamed(filename, most, am) && most <= LONG_MAX
    requires NeedsRepr(filename) || '\'' !in filename
    ensures forall k :: 0 <= k < |Entries(am)| ==> Printable(Entries(am)[k])
  {
    hide ConfigName, AllNamed, Named, NeedsRepr, Storable, Entries;
    forall k | 0 <= k < |Entries(am)|
      ensures Printable(Entries(am)[k])
    {
      EntryNamed(filename, most, am, k);
      NamedIsStorable(filename, most, Entries(am)[k]);
      NamedIsShort(filename, most, Entries(am)[k]);
    }
  }

  /** A generated name ends in a letter, so a bare quote in it is never closed. */
  lemma QuoteIsRefused(filename: string, most: nat, info: Info)
    requires ConfigName(filename) && Named(filename, most, info) && !NeedsRepr(filename) && '\'' in filename
    ensures IsBytes(info.name) && ParseLine(InfoText(info)) == Err(BadFormat)
  {
    var kind := NamedSuffix(filename, most, info);
    var suffix := Suffix(info.fileSeq, kind);
    SuffixPlain(info.fileSeq, kind);
    hide Named, Suffix, NameText, Digits;
    NameGrows(filename, suffix);
    assert IsBytes(suffix);
    assert info.name[|info.name| - 1] == suffix[|suffix| - 1];
    assert Unquoted(info.name);
    BareQuoteSplits(info);
    assert |InfoText(info)| > 0 by { FirstChar(info); }
    hide InfoText, SplitArgs, LaterArgs;
  }

  /** The file of a run whose names hold a bare quote is refused at its first line. */
  lemma QuotedRunIsRefused(filename: string, most: nat, am: Manifest)
    requires ConfigName(filename) && AllNamed(filename, most, am) && most <= LONG_MAX && Entries(am) != []
    requires !NeedsRepr(filename) && '\'' in filename
    ensures Load(Lines(Entries(am))) == Err(BadFormat)
  {
    hide ConfigName, AllNamed, Named, NeedsRepr, InfoText, Entries, LoadLine, Chunk;
    var infos := Entries(am);
    EntryNamed(filename, most, am, 0);
    NamedIsShort(filename, most, infos[0]);
    QuoteIsRefused(filename, most, infos[0]);
    InfoTextPrints(infos[0]);
    var line, rest := InfoText(infos[0]), Lines(infos[1..]);
    var text := Lines(infos);
    assert text == line + ("\n" + rest);
    ChunkOfLine(line, rest, MANIFEST_MAX_LINE);
    assert text[..|line| + 1] == line + "\n";
    LoadWholeLine(infos[0], EMPTY, 0);
  }

  /**
    After every run of the mutators from an empty manifest on, the printed manifest loads back
    to the same entries, if and only if the configured name has no quote or is quoted whole.
    */
  lemma EveryRunLoadsIff(filename: string, ops: seq<Op>)
    requires ConfigName(filename) && LongOffsets(ops) && |ops| <= LONG_MAX
    requires Entries(Run(EMPTY, filename, ops)) != []
    ensures var am := Run(EMPTY, filename, ops);
            Load(Lines(Entries(am))) == Ok(Reloaded(am)) <==> NeedsRepr(filename) || '\'' !in filename
  {
    RunNames(EMPTY, filename, ops, 0);
    var am := Run(EMPTY, filename, ops);
    hide ConfigName, AllNamed, NeedsRepr, Entries, Run, Load, Lines, Typed, Increasing, Printable;
    if NeedsRepr(filename) || '\'' !in filename {
      EntriesPrint(filename, |ops|, am);
      RoundTrip(am);
    } else {
      QuotedRunIsRefused(filename, |ops|, am);
    }
  }

  // ---- which files load ----

  function Bases(infos: seq<Info>): seq<Info> {
    if infos == [] then []
    else Bases(infos[..|infos| - 1]) + if infos[|infos| - 1].ftype.Base? then [infos[|infos| - 1]] else []
  }

  function Incrs(infos: seq<Info>): seq<Info> {
    if infos == [] then []
    else Incrs(infos[..|infos| - 1]) + if infos[|infos| - 1].ftype.Incr? then [infos[|infos| - 1]] else []
  }

  function Hists(infos: seq<Info>): seq<Info> {
    if infos == [] then []
    else Hists(infos[..|infos| - 1]) + if infos[|infos| - 1].ftype.Hist? then [infos[|infos| - 1]] else []
  }

  /** At most one base, and INCR numbers that grow from above zero. */
  predicate Acceptable(infos: seq<Info>) { |Bases(infos)| <= 1 && Increasing(Incrs(infos), 0) }

  lemma IncreasingMore(incr: seq<Info>, x: Info)
    ensures Increasing(incr + [x], 0) <==> Increasing(incr, 0) && x.fileSeq > LastSeq(incr, 0)
  {
    var more := incr + [x];
    if Increasing(more, 0) {
      assert more[|incr|] == x;
      forall i | 0 <= i < |incr| ensures 0 < incr[i].fileSeq {
        assert more[i] == incr[i];
      }
      forall i, j | 0 <= i < j < |incr| ensures incr[i].fileSeq < incr[j].fileSeq {
        assert more[i] == incr[i] && more[j] == incr[j];
      }
      if incr != [] {
        assert more[|incr| - 1] == incr[|incr| - 1];
      }
    }
  }

  lemma {:induction false} AddAllLast(infos: seq<Info>, x: Info)
    ensures AddAll(infos, EMPTY, 0).Err? ==> AddAll(infos + [x], EMPTY, 0).Err?
    ensures AddAll(infos, EMPTY, 0).Ok? ==>
      var r := AddAll(infos, EMPTY, 0).value; AddAll(infos + [x], EMPTY, 0) == AddEntry(r.0, r.1, DraftOf(x))
  {
    hide AddEntry;
    if AddAll(infos, EMPTY, 0).Ok? {
      AddAllAppend(infos, [x], EMPTY, 0);
      assert [x][1..] == [];
    } else {
      ErrorStays(infos, x, EMPTY, 0);
    }
  }

  lemma {:induction false} ErrorStays(infos: seq<Info>, x: Info, am: Manifest, maxSeq: int)
    requires AddAll(infos, am, maxSeq).Err?
    ensures AddAll(infos + [x], am, maxSeq).Err?
    decreases |infos|
  {
    hide AddEntry;
    assert (infos + [x])[1..] == infos[1..] + [x] && (infos + [x])[0] == infos[0];
    var next := AddEntry(am, maxSeq, DraftOf(infos[0]));
    if next.Ok? {
      ErrorStays(infos[1..], x, next.value.0, next.value.1);
    }
  }

  /** The manifest with the given entries. */
  function Holding(b: seq<Info>, hist: seq<Info>, incr: seq<Info>): Manifest {
    Manifest(if b == [] then None else Some(b[0]), hist, incr, if b == [] then 0 else b[0].fileSeq, LastSeq(incr, 0), false)
  }

  lemma AddOne(b: seq<Info>, hist: seq<Info>, incr: seq<Info>, x: Info)
    requires |b| <= 1
    ensures var r := AddEntry(Holding(b, hist, incr), LastSeq(incr, 0), DraftOf(x));
      match x.ftype
      case Base => if b == [] then r == Ok((Holding([x], hist, incr), LastSeq(incr, 0))) else r.Err?
      case Hist => r == Ok((Holding(b, hist + [x], incr), LastSeq(incr, 0)))
      case Incr => if x.fileSeq > LastSeq(incr, 0) then r == Ok((Holding(b, hist, incr + [x]), x.fileSeq)) else r.Err?
  {
  }

  lemma ListsOf(short: seq<Info>, x: Info)
    ensures Bases(short + [x]) == if x.ftype.Base? then Bases(short) + [x] else Bases(short)
    ensures Hists(short + [x]) == if x.ftype.Hist? then Hists(short) + [x] else Hists(short)
    ensures Incrs(short + [x]) == if x.ftype.Incr? then Incrs(short) + [x] else Incrs(short)
  {
    assert (short + [x])[..|short|] == short;
  }

  /** Entries of any types in any order are added exactly if they are acceptable, each to its own list, in order. */
  lemma {:induction false} AddsIff(infos: seq<Info>)
    ensures AddAll(infos, EMPTY, 0).Ok? <==> Acceptable(infos)
    ensures Acceptable(infos) ==>
      AddAll(infos, EMPTY, 0) == Ok((Holding(Bases(infos), Hists(infos), Incrs(infos)), LastSeq(Incrs(infos), 0)))
    decreases |infos|
  {
    if infos != [] {
      var short, x := infos[..|infos| - 1], infos[|infos| - 1];
      AddsIff(short);
      assert infos == short + [x];
      hide AddAll, AddEntry, Increasing, Bases, Hists, Incrs, Holding;
      AddAllLast(short, x);
      ListsOf(short, x);
      IncreasingMore(Incrs(short), x);
      if Acceptable(short) {
        AddOne(Bases(short), Hists(short), Incrs(short), x);
      }
    }
  }

  /**
    A file of printed lines, of any types in any order, loads exactly if it is not empty, has one base at
    most, and its INCR numbers grow; and then it loads to these entries.
    */
  lemma LoadsIff(infos: seq<Info>)
    requires forall i :: 0 <= i < |infos| ==> Printable(infos[i])
    ensures Load(Lines(infos)).Ok? <==> infos != [] && Acceptable(infos)
    ensures infos != [] && Acceptable(infos) ==>
      var am, b := Load(Lines(infos)).value, Bases(infos);
      am.base == (if b == [] then None else Some(b[0])) && am.hist == Hists(infos) && am.incr == Incrs(infos)
  {
    hide Printable, InfoText, LoadRest, AddAll, Acceptable, LastSeq;
    AddsIff(infos);
    LoadPrintedLines(infos, EMPTY, 0);
    if infos == [] {
      assert Lines(infos) == [];
    } else {
      assert Lines(infos) != [];
    }
  }

  // ---- every file that loads is sound ----

  /** What the loader has let in so far. */
  predicate Sound(am: Manifest, maxSeq: int) {
    && Typed(am) && Increasing(am.incr, 0) && maxSeq == LastSeq(am.incr, 0) && am.currIncr == maxSeq
    && am.currBase == (if am.base.Some? then am.base.value.fileSeq else 0)
    && (am.base.Some? ==> Plausible(am.base.value))
    && (forall i :: 0 <= i < |am.hist| ==> Plausible(am.hist[i]))
    && (forall i :: 0 <= i < |am.incr| ==> Plausible(am.incr[i]))
  }

  predicate Plausible(info: Info) { info.fileSeq != 0 && '/' !in info.name && '\\' !in info.name && 0 as char !in info.name }

  lemma {:induction false} CutHasNoNul(s: string)
    ensures 0 as char !in CString(s)
  {
    if s != [] && s[0] != 0 as char {
      CutHasNoNul(s[1..]);
    }
  }

  lemma {:induction false} FieldsPlausible(d: Draft, argv: seq<string>)
    requires |argv| % 2 == 0
    requires d.name.Some? ==> IsBaseName(d.name.value) && 0 as char !in d.name.value
    ensures var r := SetFields(d, argv); r.Ok? && r.value.name.Some? ==> IsBaseName(r.value.name.value) && 0 as char !in r.value.name.value
    decreases |argv|
  {
    hide Atoi, KeyOf, CString;
    if argv != [] {
      CutHasNoNul(argv[1]);
      var next := SetField(d, KeyOf(CString(argv[0])), CString(argv[1]));
      if next.Ok? {
        FieldsPlausible(next.value, argv[2..]);
      }
    }
  }

  lemma LineSound(chunk: string, am: Manifest, maxSeq: int)
    requires chunk != [] && Sound(am, maxSeq)
    ensures var r := LoadLine(chunk, am, maxSeq); r.Ok? ==> Sound(r.value.0, r.value.1)
  {
    hide CString, TrimLeft, TrimRight, SplitArgs, SetFields;
    if chunk[0] != '#' && '\n' in CString(chunk) {
      var line := TrimRight(TrimLeft(CString(chunk)));
      var argv := SplitArgs(line);
      if ParseLine(line).Ok? {
        FieldsPlausible(NEW_DRAFT, argv.value);
        EntrySound(am, maxSeq, ParseLine(line).value);
      }
    }
  }

  lemma EntrySound(am: Manifest, maxSeq: int, d: Draft)
    requires Sound(am, maxSeq) && d.name.Some? && d.ftype.Some? && d.fileSeq != 0
    requires IsBaseName(d.name.value) && 0 as char !in d.name.value
    ensures var r := AddEntry(am, maxSeq, d); r.Ok? ==> Sound(r.value.0, r.value.1)
  {
    if d.ftype.value == 'i' {
      IncreasingMore(am.incr, ToInfo(d, Incr));
      hide Increasing;
    }
  }

  lemma {:induction false} RestSound(text: string, am: Manifest, maxSeq: int)
    requires Sound(am, maxSeq)
    ensures var r := LoadRest(text, am, maxSeq); r.Ok? ==> exists m :: Sound(r.value, m)
    decreases |text|
  {
    hide Sound, LoadLine, Chunk;
    if text != [] {
      var n := Chunk(text, MANIFEST_MAX_LINE);
      LineSound(text[..n], am, maxSeq);
      var next := LoadLine(text[..n], am, maxSeq);
      if next.Ok? {
        RestSound(text[n..], next.value.0, next.value.1);
      }
    } else {
      assert Sound(am, maxSeq);
    }
  }

  /**
    Whatever the file holds: a manifest that loads has lists of the right types, INCR numbers that grow from
    above zero, base names without NUL and numbers other than zero, and the counters of its own entries.
    */
  lemma LoadedIsSound(text: string)
    ensures Load(text).Ok? ==> Sound(Load(text).value, LastSeq(Load(text).value.incr, 0))
  {
    assert Sound(EMPTY, 0);
    RestSound(text, EMPTY, 0);
    hide Typed, Increasing, LoadRest, Plausible;
  }
}
