/**
  The AOF manifest of aof.c: which files make up the log, how the list is
  printed, loaded back and changed.
  */
module AofManifest {
  import opened Wrappers
  import opened Decimal
  import opened SdsText

  datatype FileType = Base | Hist | Incr

  datatype Info = Info(name: string, fileSeq: int, ftype: FileType, start: int, end: int)

  datatype Manifest = Manifest(base: Option<Info>, hist: seq<Info>, incr: seq<Info>,
                               currBase: int, currIncr: int, dirty: bool)

  const EMPTY := Manifest(None, [], [], 0, 0, false)

  // ---- printing ----

  function TypeChar(t: FileType): char {
    match t
    case Base => 'b'
    case Hist => 'h'
    case Incr => 'i'
  }

  function PrintInt(n: int): string {
    if n < 0 then "-" + Digits(-n) else Digits(n)
  }

  function NameText(name: string): string {
    if NeedsRepr(name) then Repr(name) else name
  }

  datatype Key = FileKey | SeqKey | TypeKey | StartKey | EndKey

  /** The AOF_MANIFEST_KEY_* words. */
  function KeyText(k: Key): string {
    match k
    case FileKey => "file"
    case SeqKey => "seq"
    case TypeKey => "type"
    case StartKey => "startoffset"
    case EndKey => "endoffset"
  }

  function OffsetsText(info: Info): string {
    if info.start == -1 then ""
    else if info.end == -1 then " " + (KeyText(StartKey) + " " + PrintInt(info.start))
    else " " + (KeyText(StartKey) + " " + (PrintInt(info.start) + " " + (KeyText(EndKey) + " " + PrintInt(info.end))))
  }

  /** aofInfoFormat without the line end. */
  function InfoText(info: Info): string {
    KeyText(FileKey) + " " + (NameText(info.name) + " " +
      (KeyText(SeqKey) + " " + (PrintInt(info.fileSeq) + " " +
        (KeyText(TypeKey) + " " + ([TypeChar(info.ftype)] + OffsetsText(info))))))
  }

  function Lines(infos: seq<Info>): string {
    if infos == [] then "" else InfoText(infos[0]) + "\n" + Lines(infos[1..])
  }

  /** All entries in the order they are printed: base, history, incremental. */
  function Entries(am: Manifest): seq<Info> {
    (if am.base.Some? then [am.base.value] else []) + am.hist + am.incr
  }

  // ---- loading ----

  const MANIFEST_MAX_LINE := 1024

  datatype LoadError = EmptyManifest | LineTooLong | BadFormat | NotBaseName | DuplicateBase | NonMonotonic | UnknownType

  /** What one fgets call takes: up to and including a line end, at most `limit` characters. */
  function Chunk(text: string, limit: nat): (n: nat)
    requires text != [] && limit > 0
    ensures 0 < n <= |text| && n <= limit
  {
    if text[0] == '\n' || |text| == 1 || limit == 1 then 1 else 1 + Chunk(text[1..], limit - 1)
  }

  /** A buffer as the C string functions see it: up to the first NUL. */
  function CString(s: string): (r: string)
    ensures |r| <= |s| && r == s[..|r|]
  {
    if s == [] || s[0] == 0 as char then [] else
      var r := CString(s[1..]);
      [s[0]] + r
  }

  predicate IsTrimmed(c: char) { c == ' ' || c == '\t' || c == '\r' || c == '\n' }

  function TrimLeft(s: string): string {
    if s != [] && IsTrimmed(s[0]) then TrimLeft(s[1..]) else s
  }

  function TrimRight(s: string): string {
    if s != [] && IsTrimmed(s[|s| - 1]) then TrimRight(s[..|s| - 1]) else s
  }

  predicate IsBaseName(name: string) { '/' !in name && '\\' !in name }

  /** An entry under construction; a missing name or type is None. */
  datatype Draft = Draft(name: Option<string>, fileSeq: int, ftype: Option<char>, start: int, end: int)

  const NEW_DRAFT := Draft(None, 0, None, -1, -1)

  /** Keys are recognised in any case. */
  function KeyOf(word: string): Option<Key> {
    var w := ToLower(word);
    if w == KeyText(FileKey) then Some(FileKey)
    else if w == KeyText(SeqKey) then Some(SeqKey)
    else if w == KeyText(TypeKey) then Some(TypeKey)
    else if w == KeyText(StartKey) then Some(StartKey)
    else if w == KeyText(EndKey) then Some(EndKey)
    else None
  }

  /** One key and value of a manifest line. */
  function SetField(d: Draft, key: Option<Key>, value: string): Result<Draft, LoadError> {
    match key
    case Some(FileKey) => if IsBaseName(value) then Ok(d.(name := Some(value))) else Err(NotBaseName)
    case Some(SeqKey) => Ok(d.(fileSeq := Atoi(value)))
    case Some(TypeKey) => Ok(d.(ftype := if value == [] then None else Some(value[0])))
    case Some(StartKey) => Ok(d.(start := Atoi(value)))
    case Some(EndKey) => Ok(d.(end := Atoi(value)))
    case None => Ok(d)
  }

  /** Keys and values are taken as C strings, so each ends at a NUL. */
  function SetFields(d: Draft, argv: seq<string>): Result<Draft, LoadError>
    requires |argv| % 2 == 0
    decreases |argv|
  {
    if argv == [] then Ok(d)
    else
      var next :- SetField(d, KeyOf(CString(argv[0])), CString(argv[1]));
      SetFields(next, argv[2..])
  }

  function ParseLine(line: string): Result<Draft, LoadError> {
    if line == [] then Err(BadFormat)
    else
      var argv := SplitArgs(line);
      if argv.None? || |argv.value| < 6 || |argv.value| % 2 != 0 then Err(BadFormat)
      else
        var d :- SetFields(NEW_DRAFT, argv.value);
        if d.name.None? || d.fileSeq == 0 || d.ftype.None? then Err(BadFormat) else Ok(d)
  }

  function ToInfo(d: Draft, t: FileType): Info
    requires d.name.Some?
  {
    Info(d.name.value, d.fileSeq, t, d.start, d.end)
  }

  /** Adds a parsed entry to the manifest; `maxSeq` is the last INCR sequence seen. */
  function AddEntry(am: Manifest, maxSeq: int, d: Draft): Result<(Manifest, int), LoadError>
    requires d.name.Some? && d.ftype.Some?
  {
    if d.ftype.value == 'b' then
      if am.base.Some? then Err(DuplicateBase)
      else Ok((am.(base := Some(ToInfo(d, Base)), currBase := d.fileSeq), maxSeq))
    else if d.ftype.value == 'h' then
      Ok((am.(hist := am.hist + [ToInfo(d, Hist)]), maxSeq))
    else if d.ftype.value == 'i' then
      if d.fileSeq <= maxSeq then Err(NonMonotonic)
      else Ok((am.(incr := am.incr + [ToInfo(d, Incr)], currIncr := d.fileSeq), d.fileSeq))
    else Err(UnknownType)
  }

  /** One line of the file, already cut out by fgets. */
  function LoadLine(chunk: string, am: Manifest, maxSeq: int): Result<(Manifest, int), LoadError>
    requires chunk != []
  {
    if chunk[0] == '#' then Ok((am, maxSeq))
    else if '\n' !in CString(chunk) then Err(LineTooLong)
    else
      var d :- ParseLine(TrimRight(TrimLeft(CString(chunk))));
      AddEntry(am, maxSeq, d)
  }

  function LoadRest(text: string, am: Manifest, maxSeq: int): Result<Manifest, LoadError>
    decreases |text|
  {
    if text == [] then Ok(am)
    else
      var n := Chunk(text, MANIFEST_MAX_LINE);
      var next :- LoadLine(text[..n], am, maxSeq);
      LoadRest(text[n..], next.0, next.1)
  }

  /** aofLoadManifestFromFile on the contents of the file. */
  function Load(text: string): Result<Manifest, LoadError> {
    if text == [] then Err(EmptyManifest) else LoadRest(text, EMPTY, 0)
  }

  // ---- loading what was printed ----

  /** A name that is read back as one argument. */
  predicate Quotable(name: string) { name != [] && IsBytes(name) && (NeedsRepr(name) || '\'' !in name) }

  /** An entry whose line is parsed back into it. */
  predicate Storable(info: Info) {
    && Quotable(info.name) && IsBaseName(info.name) && 0 as char !in info.name
    && info.fileSeq != 0 && (info.start == -1 ==> info.end == -1)
  }

  /** An entry that survives printing and loading. */
  predicate Printable(info: Info) { Storable(info) && |InfoText(info)| < MANIFEST_MAX_LINE }

  predicate AllPrint(s: string) { forall i :: 0 <= i < |s| ==> IsPrint(s[i]) }

  lemma {:induction false} ReprPrints(s: string)
    requires IsBytes(s)
    ensures AllPrint(ReprBody(s))
  {
    if s != [] { ReprPrints(s[1..]); }
  }

  lemma PrintIntBare(n: int)
    ensures Bare(PrintInt(n)) && AllPrint(PrintInt(n))
  {
    hide Digits;
  }

  lemma AtoiOfPrintInt(n: int)
    ensures Atoi(PrintInt(n)) == n
  {
    hide Digits, Value;
    var m := if n < 0 then -n else n;
    var s := Digits(m);
    if n < 0 {
      assert PrintInt(n)[0] == '-' && PrintInt(n)[1..] == s;
      DigitRunStops(s, []);
      assert s + [] == s && s[..|s|] == s;
      ValueOfDigits(m);
    } else {
      AtoiOfDigits(m, []);
      assert s + [] == s;
    }
  }

  /** The name as printed is read back as one argument. */
  lemma SplitName(name: string, rest: string)
    requires name != [] && IsBytes(name) && (NeedsRepr(name) || '\'' !in name)
    requires SplitArgs(rest).Some?
    ensures SplitArgs(NameText(name) + [' '] + rest) == Some([name] + SplitArgs(rest).value)
  {
    hide SplitArgs;
    if NeedsRepr(name) {
      SplitRepr(name, rest);
    } else {
      assert forall i :: 0 <= i < |name| ==> !CharNeedsRepr(name[i]);
      SplitBare(name, rest);
    }
  }

  lemma NamePrints(name: string)
    requires IsBytes(name)
    ensures AllPrint(NameText(name))
  {
    if NeedsRepr(name) {
      ReprPrints(name);
    } else {
      assert forall i :: 0 <= i < |name| ==> !CharNeedsRepr(name[i]);
    }
  }

  function OffsetArgs(info: Info): seq<string> {
    if info.start == -1 then []
    else if info.end == -1 then [KeyText(StartKey), PrintInt(info.start)]
    else [KeyText(StartKey), PrintInt(info.start), KeyText(EndKey), PrintInt(info.end)]
  }

  lemma KeysAreBare(k: Key)
    ensures Bare(KeyText(k))
  {
  }

  lemma SplitTwo(a: string, b: string)
    requires Bare(a) && Bare(b)
    ensures SplitArgs(a + " " + b) == Some([a, b])
  {
    hide SplitArgs;
    SplitLast(b);
    SplitBare(a, b);
    assert [a] + [b] == [a, b];
  }

  lemma SplitThree(a: string, b: string, c: string)
    requires Bare(a) && Bare(b) && Bare(c)
    ensures SplitArgs(a + (" " + (b + " " + c))) == Some([a, b, c])
  {
    hide SplitArgs;
    SplitTwo(b, c);
    SplitBare(a, b + " " + c);
    assert a + (" " + (b + " " + c)) == a + " " + (b + " " + c);
    assert [a] + [b, c] == [a, b, c];
  }

  lemma SplitFive(a: string, b: string, c: string, d: string, e: string)
    requires Bare(a) && Bare(b) && Bare(c) && Bare(d) && Bare(e)
    ensures SplitArgs(a + (" " + (b + " " + (c + " " + (d + " " + e))))) == Some([a, b, c, d, e])
  {
    hide SplitArgs, Bare;
    SplitThree(c, d, e);
    var tail := c + " " + (d + " " + e);
    assert c + (" " + (d + " " + e)) == tail;
    SplitBare(b, tail);
    SplitBare(a, b + " " + tail);
    assert a + (" " + (b + " " + tail)) == a + " " + (b + " " + tail);
    assert [a] + ([b] + [c, d, e]) == [a, b, c, d, e];
  }

  /** The type and the offsets as printed are read back as their arguments. */
  lemma SplitOffsets(info: Info)
    ensures SplitArgs([TypeChar(info.ftype)] + OffsetsText(info)) == Some([[TypeChar(info.ftype)]] + OffsetArgs(info))
  {
    var t := [TypeChar(info.ftype)];
    var s, e := PrintInt(info.start), PrintInt(info.end);
    var start, end := KeyText(StartKey), KeyText(EndKey);
    assert Bare(t);
    PrintIntBare(info.start);
    PrintIntBare(info.end);
    KeysAreBare(StartKey);
    KeysAreBare(EndKey);
    hide SplitArgs, PrintInt, Bare, KeyText, TypeChar;
    if info.start == -1 {
      SplitLast(t);
      assert t + "" == t && [t] + OffsetArgs(info) == [t];
    } else if info.end == -1 {
      SplitThree(t, start, s);
      assert [t] + [start, s] == [t, start, s];
    } else {
      SplitFive(t, start, s, end, e);
      assert [t] + [start, s, end, e] == [t, start, s, end, e];
    }
  }

  function InfoArgs(info: Info): seq<string> {
    [KeyText(FileKey), info.name] + ([KeyText(SeqKey), PrintInt(info.fileSeq)] +
      ([KeyText(TypeKey), [TypeChar(info.ftype)]] + OffsetArgs(info)))
  }

  /** The arguments of a printed line. */
  lemma SplitInfo(info: Info)
    requires Quotable(info.name)
    ensures SplitArgs(InfoText(info)) == Some(InfoArgs(info))
  {
    var number := PrintInt(info.fileSeq);
    var k1, k2, k3 := KeyText(FileKey), KeyText(SeqKey), KeyText(TypeKey);
    var tail, args := [TypeChar(info.ftype)] + OffsetsText(info), [[TypeChar(info.ftype)]] + OffsetArgs(info);
    SplitOffsets(info);
    PrintIntBare(info.fileSeq);
    KeysAreBare(FileKey);
    KeysAreBare(SeqKey);
    KeysAreBare(TypeKey);
    hide SplitArgs, PrintInt, NameText, OffsetsText, OffsetArgs, Bare, NeedsRepr, IsBytes, KeyText, TypeChar;
    var s2 := k2 + " " + (number + " " + (k3 + " " + tail));
    SplitBare(k3, tail);
    SplitBare(number, k3 + " " + tail);
    SplitBare(k2, number + " " + (k3 + " " + tail));
    SplitName(info.name, s2);
    SplitBare(k1, NameText(info.name) + " " + s2);
    assert [k1] + ([info.name] + ([k2] + ([number] + ([k3] + args)))) == InfoArgs(info);
  }

  lemma LowerIsSame(s: string)
    requires forall i :: 0 <= i < |s| ==> !('A' <= s[i] <= 'Z')
    ensures ToLower(s) == s
  {
  }

  lemma KeyOfText(k: Key)
    ensures KeyOf(KeyText(k)) == Some(k)
  {
    hide ToLower;
    LowerIsSame(KeyText(k));
    KeysDiffer();
    hide KeyText;
  }

  lemma KeysDiffer()
    ensures forall j: Key, k: Key :: j != k ==> KeyText(j) != KeyText(k)
  {
    assert KeyText(FileKey)[0] == 'f' && KeyText(SeqKey)[1] == 'e' && KeyText(TypeKey)[0] == 't';
    assert KeyText(StartKey)[1] == 't' && KeyText(EndKey)[0] == 'e' && KeyText(SeqKey)[0] == KeyText(StartKey)[0] == 's';
  }

  /** The draft a printed line is parsed into. */
  function DraftOf(info: Info): Draft {
    Draft(Some(info.name), info.fileSeq, Some(TypeChar(info.ftype)), info.start, info.end)
  }

  /** The draft left by the fields of a printed line that splits back. */
  function Stored(info: Info): Draft {
    DraftOf(info).(name := Some(CString(info.name)), end := if info.start == -1 then -1 else info.end)
  }

  lemma {:induction false} CStringOfText(s: string)
    requires 0 as char !in s
    ensures CString(s) == s
  {
    if s != [] {
      CStringOfText(s[1..]);
      assert s == [s[0]] + s[1..];
    }
  }

  lemma NumberIsText(n: int)
    ensures CString(PrintInt(n)) == PrintInt(n)
  {
    PrintIntBare(n);
    hide PrintInt;
    CStringOfText(PrintInt(n));
  }

  lemma KeyIsText(k: Key)
    ensures CString(KeyText(k)) == KeyText(k)
  {
    CStringOfText(KeyText(k));
  }

  lemma FieldStep(d: Draft, key: Key, value: string, rest: seq<string>)
    requires |rest| % 2 == 0
    ensures |[KeyText(key), value] + rest| % 2 == 0
    ensures var next := SetField(d, Some(key), CString(value));
            SetFields(d, [KeyText(key), value] + rest) == if next.Ok? then SetFields(next.value, rest) else next
  {
    KeyOfText(key);
    KeyIsText(key);
    hide SetField, KeyText, KeyOf, CString;
    assert ([KeyText(key), value] + rest)[2..] == rest;
  }

  lemma FieldsOfOffsets(d: Draft, info: Info)
    requires d.start == -1 && d.end == -1
    ensures |OffsetArgs(info)| % 2 == 0
    ensures SetFields(d, OffsetArgs(info)) == Ok(d.(start := info.start, end := if info.start == -1 then -1 else info.end))
  {
    AtoiOfPrintInt(info.start);
    AtoiOfPrintInt(info.end);
    NumberIsText(info.start);
    NumberIsText(info.end);
    hide Atoi, PrintInt, KeyText, CString;
    if info.start != -1 {
      var d1 := d.(start := info.start);
      if info.end == -1 {
        FieldStep(d, StartKey, PrintInt(info.start), []);
      } else {
        FieldStep(d1, EndKey, PrintInt(info.end), []);
        var tail := [KeyText(EndKey), PrintInt(info.end)];
        FieldStep(d, StartKey, PrintInt(info.start), tail);
        assert tail + [] == tail && [KeyText(StartKey), PrintInt(info.start)] + tail == OffsetArgs(info);
      }
    }
  }

  lemma FieldsOfInfo(info: Info)
    ensures |InfoArgs(info)| % 2 == 0
    ensures SetFields(NEW_DRAFT, InfoArgs(info)) == if IsBaseName(CString(info.name)) then Ok(Stored(info)) else Err(NotBaseName)
  {
    var d1 := NEW_DRAFT.(name := Some(CString(info.name)));
    var d2 := d1.(fileSeq := info.fileSeq);
    var number, t := PrintInt(info.fileSeq), [TypeChar(info.ftype)];
    AtoiOfPrintInt(info.fileSeq);
    NumberIsText(info.fileSeq);
    CStringOfText(t);
    FieldsOfOffsets(d2.(ftype := Some(TypeChar(info.ftype))), info);
    hide Atoi, PrintInt, OffsetArgs, SetFields, KeyText, TypeChar, CString, IsBaseName;
    FieldStep(d2, TypeKey, t, OffsetArgs(info));
    FieldStep(d1, SeqKey, number, [KeyText(TypeKey), t] + OffsetArgs(info));
    FieldStep(NEW_DRAFT, FileKey, info.name, [KeyText(SeqKey), number] + ([KeyText(TypeKey), t] + OffsetArgs(info)));
  }

  /** What the line of an entry with a quotable name is parsed into. */
  lemma ParseQuotable(info: Info)
    requires Quotable(info.name)
    ensures ParseLine(InfoText(info)) ==
              if !IsBaseName(CString(info.name)) then Err(NotBaseName)
              else if info.fileSeq == 0 then Err(BadFormat)
              else Ok(Stored(info))
  {
    SplitInfo(info);
    FieldsOfInfo(info);
    assert |InfoText(info)| > 0;
    hide SplitArgs, SetFields, InfoText, KeyText, NeedsRepr, IsBytes, CString, IsBaseName;
    assert |InfoArgs(info)| >= 6;
  }

  lemma ParseInfo(info: Info)
    requires Storable(info)
    ensures ParseLine(InfoText(info)) == Ok(DraftOf(info))
  {
    hide ParseLine, InfoText, Quotable, CString;
    ParseQuotable(info);
    CStringOfText(info.name);
  }

  // ---- lines ----

  lemma {:induction false} ChunkOfLine(line: string, rest: string, limit: nat)
    requires '\n' !in line && |line| < limit
    ensures Chunk(line + ("\n" + rest), limit) == |line| + 1
    decreases |line|
  {
    var text := line + ("\n" + rest);
    if line != [] {
      assert text[1..] == line[1..] + ("\n" + rest);
      assert text[0] == line[0] && line[0] in line;
      ChunkOfLine(line[1..], rest, limit - 1);
    } else {
      assert text[0] == '\n';
    }
  }

  lemma PrintsTogether(a: string, b: string)
    requires AllPrint(a) && AllPrint(b)
    ensures AllPrint(a + " " + b)
    ensures b != [] ==> (a + " " + b)[|a + " " + b| - 1] == b[|b| - 1]
  {
  }

  lemma InfoTextPrints(info: Info)
    requires IsBytes(info.name)
    ensures AllPrint(InfoText(info)) && |InfoText(info)| > 0
    ensures !IsTrimmed(InfoText(info)[0]) && !IsTrimmed(InfoText(info)[|InfoText(info)| - 1])
  {
    PrintIntBare(info.fileSeq);
    NamePrints(info.name);
    KeysPrint();
    TailPrints(info);
    FirstChar(info);
    hide KeyText, PrintInt, NameText, OffsetsText, AllPrint, NeedsRepr, IsBytes, TypeChar;
    var s1 := [TypeChar(info.ftype)] + OffsetsText(info);
    var s2 := KeyText(TypeKey) + " " + s1;
    var s3 := PrintInt(info.fileSeq) + " " + s2;
    var s4 := KeyText(SeqKey) + " " + s3;
    var s5 := NameText(info.name) + " " + s4;
    PrintsTogether(KeyText(TypeKey), s1);
    PrintsTogether(PrintInt(info.fileSeq), s2);
    PrintsTogether(KeyText(SeqKey), s3);
    PrintsTogether(NameText(info.name), s4);
    PrintsTogether(KeyText(FileKey), s5);
  }

  lemma KeysPrint()
    ensures forall k: Key :: AllPrint(KeyText(k)) && KeyText(k) != []
  {
  }

  lemma TailPrints(info: Info)
    ensures AllPrint([TypeChar(info.ftype)] + OffsetsText(info))
    ensures !IsTrimmed(([TypeChar(info.ftype)] + OffsetsText(info))[|OffsetsText(info)|])
  {
    PrintIntBare(info.start);
    PrintIntBare(info.end);
    KeysPrint();
    hide KeyText, PrintInt;
  }

  /** A printed line with its line end is parsed whole. */
  lemma LoadWholeLine(info: Info, am: Manifest, maxSeq: int)
    requires IsBytes(info.name)
    ensures var d := ParseLine(InfoText(info));
            LoadLine(InfoText(info) + "\n", am, maxSeq) == if d.Ok? then AddEntry(am, maxSeq, d.value) else Err(d.error)
  {
    InfoTextPrints(info);
    hide InfoText, ParseLine, AddEntry, IsBytes;
    var line := InfoText(info);
    var chunk := line + "\n";
    assert 0 as char !in chunk;
    CStringOfText(chunk);
    assert chunk[|line|] == '\n';
    assert chunk[0] == line[0] && TrimLeft(chunk) == chunk;
    assert chunk[..|chunk| - 1] == line && TrimRight(line) == line;
    assert TrimRight(chunk) == line;
    FirstChar(info);
  }

  /** One printed line is loaded as its entry. */
  lemma LoadPrintedLine(info: Info, am: Manifest, maxSeq: int)
    requires Printable(info)
    ensures LoadLine(InfoText(info) + "\n", am, maxSeq) == AddEntry(am, maxSeq, DraftOf(info))
  {
    hide InfoText, ParseLine, LoadLine, AddEntry, IsBytes, NeedsRepr;
    ParseInfo(info);
    LoadWholeLine(info, am, maxSeq);
  }

  lemma FirstChar(info: Info)
    ensures InfoText(info)[0] == 'f'
  {
    assert KeyText(FileKey)[0] == 'f';
    hide KeyText, PrintInt, NameText, OffsetsText, TypeChar;
  }

  /** Adds entries one after the other. */
  function AddAll(infos: seq<Info>, am: Manifest, maxSeq: int): Result<(Manifest, int), LoadError> {
    if infos == [] then Ok((am, maxSeq))
    else
      var next :- AddEntry(am, maxSeq, DraftOf(infos[0]));
      AddAll(infos[1..], next.0, next.1)
  }

  /** Loading printed lines adds their entries in order. */
  lemma {:induction false} LoadPrintedLines(infos: seq<Info>, am: Manifest, maxSeq: int)
    requires forall i :: 0 <= i < |infos| ==> Printable(infos[i])
    ensures AddAll(infos, am, maxSeq).Ok? ==> LoadRest(Lines(infos), am, maxSeq) == Ok(AddAll(infos, am, maxSeq).value.0)
    ensures AddAll(infos, am, maxSeq).Err? ==> LoadRest(Lines(infos), am, maxSeq) == Err(AddAll(infos, am, maxSeq).error)
    decreases |infos|
  {
    hide InfoText, AddEntry, LoadLine, Chunk;
    if infos != [] {
      var line, rest := InfoText(infos[0]), Lines(infos[1..]);
      var text := Lines(infos);
      assert text == line + ("\n" + rest);
      InfoTextPrints(infos[0]);
      ChunkOfLine(line, rest, MANIFEST_MAX_LINE);
      assert text[..|line| + 1] == line + "\n" && text[|line| + 1..] == rest;
      LoadPrintedLine(infos[0], am, maxSeq);
      var next := AddEntry(am, maxSeq, DraftOf(infos[0]));
      if next.Ok? {
        LoadPrintedLines(infos[1..], next.value.0, next.value.1);
      }
    }
  }

  lemma {:induction false} AddAllAppend(a: seq<Info>, b: seq<Info>, am: Manifest, maxSeq: int)
    requires AddAll(a, am, maxSeq).Ok?
    ensures AddAll(a + b, am, maxSeq) == AddAll(b, AddAll(a, am, maxSeq).value.0, AddAll(a, am, maxSeq).value.1)
    decreases |a|
  {
    hide AddEntry;
    if a == [] {
      assert a + b == b;
    } else {
      assert (a + b)[1..] == a[1..] + b;
      var next := AddEntry(am, maxSeq, DraftOf(a[0])).value;
      AddAllAppend(a[1..], b, next.0, next.1);
    }
  }

  // ---- well-formed manifests ----

  /** Each list holds entries of its own type. */
  predicate Typed(am: Manifest) {
    && (am.base.Some? ==> am.base.value.ftype == Base)
    && (forall i :: 0 <= i < |am.hist| ==> am.hist[i].ftype == Hist)
    && (forall i :: 0 <= i < |am.incr| ==> am.incr[i].ftype == Incr)
  }

  /** INCR sequence numbers grow strictly and start above `low`. */
  predicate Increasing(incr: seq<Info>, low: int) {
    && (forall i :: 0 <= i < |incr| ==> low < incr[i].fileSeq)
    && (forall i, j :: 0 <= i < j < |incr| ==> incr[i].fileSeq < incr[j].fileSeq)
  }

  function LastSeq(incr: seq<Info>, none: int): int {
    if incr == [] then none else incr[|incr| - 1].fileSeq
  }

  /** The manifest as the next process sees it. */
  function Reloaded(am: Manifest): Manifest {
    Manifest(am.base, am.hist, am.incr,
             if am.base.Some? then am.base.value.fileSeq else 0, LastSeq(am.incr, 0), false)
  }

  lemma {:induction false} AddHistory(hist: seq<Info>, am: Manifest, maxSeq: int)
    requires forall i :: 0 <= i < |hist| ==> hist[i].ftype == Hist
    ensures AddAll(hist, am, maxSeq) == Ok((am.(hist := am.hist + hist), maxSeq))
    decreases |hist|
  {
    if hist == [] {
      assert am.hist + hist == am.hist;
    } else {
      AddHistory(hist[1..], am.(hist := am.hist + [hist[0]]), maxSeq);
      assert am.hist + hist == am.hist + [hist[0]] + hist[1..];
    }
  }

  lemma {:induction false} AddIncrs(incr: seq<Info>, am: Manifest, maxSeq: int)
    requires forall i :: 0 <= i < |incr| ==> incr[i].ftype == Incr
    requires Increasing(incr, maxSeq)
    ensures AddAll(incr, am, maxSeq)
         == Ok((am.(incr := am.incr + incr, currIncr := LastSeq(incr, am.currIncr)), LastSeq(incr, maxSeq)))
    decreases |incr|
  {
    if incr == [] {
      assert am.incr + incr == am.incr;
    } else {
      var s := incr[0].fileSeq;
      AddIncrs(incr[1..], am.(incr := am.incr + [incr[0]], currIncr := s), s);
      assert am.incr + incr == am.incr + [incr[0]] + incr[1..];
    }
  }

  lemma AddBase(base: Option<Info>)
    requires base.Some? ==> base.value.ftype == Base
    ensures AddAll(if base.Some? then [base.value] else [], EMPTY, 0)
         == Ok((EMPTY.(base := base, currBase := if base.Some? then base.value.fileSeq else 0), 0))
  {
  }

  lemma AddLists(hist: seq<Info>, incr: seq<Info>, am: Manifest)
    requires forall i :: 0 <= i < |hist| ==> hist[i].ftype == Hist
    requires forall i :: 0 <= i < |incr| ==> incr[i].ftype == Incr
    requires Increasing(incr, 0) && am.hist == [] && am.incr == [] && am.currIncr == 0
    ensures AddAll(hist + incr, am, 0)
         == Ok((am.(hist := hist, incr := incr, currIncr := LastSeq(incr, 0)), LastSeq(incr, 0)))
  {
    hide AddAll, AddEntry, Increasing, LastSeq;
    AddHistory(hist, am, 0);
    AddAllAppend(hist, incr, am, 0);
    assert am.hist + hist == hist && am.incr + incr == incr;
    AddIncrs(incr, am.(hist := hist), 0);
  }

  lemma AddEntries(am: Manifest)
    requires Typed(am) && Increasing(am.incr, 0)
    ensures AddAll(Entries(am), EMPTY, 0) == Ok((Reloaded(am), LastSeq(am.incr, 0)))
  {
    hide AddAll, AddEntry, Increasing, LastSeq;
    var base := if am.base.Some? then [am.base.value] else [];
    AddBase(am.base);
    var am1 := AddAll(base, EMPTY, 0).value.0;
    AddLists(am.hist, am.incr, am1);
    AddAllAppend(base, am.hist + am.incr, EMPTY, 0);
    hide Typed;
    assert Entries(am) == base + (am.hist + am.incr);
  }

  /** Loading the printed manifest gives the same base, history and incremental entries. */
  lemma RoundTrip(am: Manifest)
    requires Typed(am) && Increasing(am.incr, 0) && Entries(am) != []
    requires forall i :: 0 <= i < |Entries(am)| ==> Printable(Entries(am)[i])
    ensures Load(Lines(Entries(am))) == Ok(Reloaded(am))
  {
    hide Printable, InfoText, LoadRest, AddAll, Entries, Typed, Increasing;
    AddEntries(am);
    LoadPrintedLines(Entries(am), EMPTY, 0);
  }

  /** An empty manifest is printed as an empty file, which is refused. */
  lemma EmptyDoesNotLoad(am: Manifest)
    requires Entries(am) == []
    ensures Load(Lines(Entries(am))) == Err(EmptyManifest)
  {
  }
}
