/**
  Feeding commands to the append-only file: a SELECT goes in front whenever the
  database changes, and each file loads on its own, from a fresh client, to the
  commands fed into it, each in its own database.
  */
module AofFeed {
  import opened Wrappers
  import opened Decimal
  import opened SdsText
  import opened AofText
  import opened AofLoad
  import AofDisk

  /**
    A command for a database; a MULTI or EXEC, which is fed without a database; or a rewrite
    that fails to start, which feeds nothing and forgets the selected database.
    */
  datatype Item = Ordinary(db: nat, argv: Argv) | Control(argv: Argv) | Forget

  predicate HasWords(item: Item) { item.Forget? || item.argv != [] }

  ghost predicate ItemOk(setup: Setup, item: Item) {
    && (!item.Forget? ==> item.argv != [] && Writable(item.argv) && setup.known(item.argv))
    && (item.Ordinary? ==> item.db < setup.dbnum && KindOf(item.argv).Other?)
    && (item.Control? ==> KindOf(item.argv).Multi? || KindOf(item.argv).Exec?)
  }

  ghost predicate ItemsOk(setup: Setup, items: seq<Item>) {
    forall i :: 0 <= i < |items| ==> ItemOk(setup, items[i])
  }

  function SelectWord(): string { "SELECT" }

  function SelectArgv(db: nat): Argv { [SelectWord(), Digits(db)] }

  /** The SELECT that feedAppendOnlyFile writes. */
  function SelectCommand(db: nat): string {
    "*2\r\n$6\r\nSELECT\r\n" + ("$" + Digits(|Digits(db)|) + "\r\n" + Digits(db) + "\r\n")
  }

  lemma SelectHead()
    ensures Header('*', 2) + ArgText(SelectWord()) == "*2\r\n$6\r\nSELECT\r\n"
  {
    OneDigit(2);
    OneDigit(6);
    hide Digits;
  }

  lemma SelectText(db: nat)
    ensures CommandText(SelectArgv(db)) == SelectCommand(db)
  {
    SelectHead();
    TwoArgs(SelectWord(), Digits(db));
    hide Digits, ArgsText, SelectWord;
    var tail := "$" + Digits(|Digits(db)|) + "\r\n" + Digits(db) + "\r\n";
    assert ArgText(Digits(db)) == tail;
    hide ArgText;
    assert Header('*', 2) + (ArgText(SelectWord()) + tail) == Header('*', 2) + ArgText(SelectWord()) + tail;
  }

  /** aof_selected_db: the database the file is in, or none. */
  function Selected(selected: Option<nat>, item: Item): Option<nat> {
    if item.Ordinary? then Some(item.db) else if item.Forget? then None else selected
  }

  /** The commands written for one item. */
  function Written(selected: Option<nat>, item: Item): seq<Argv> {
    if item.Forget? then []
    else if item.Ordinary? && selected != Some(item.db) then [SelectArgv(item.db), item.argv]
    else [item.argv]
  }

  function SelectedAfter(items: seq<Item>): Option<nat> {
    if items == [] then None else Selected(SelectedAfter(items[..|items| - 1]), items[|items| - 1])
  }

  /** The commands written for items fed to a new file. */
  function WrittenAll(items: seq<Item>): seq<Argv> {
    if items == [] then []
    else
      var short, last := items[..|items| - 1], items[|items| - 1];
      WrittenAll(short) + Written(SelectedAfter(short), last)
  }

  lemma {:induction false} LogTextAppend(a: seq<Argv>, b: seq<Argv>)
    ensures LogText(a + b) == LogText(a) + LogText(b)
    decreases |b|
  {
    hide CommandText;
    if b == [] {
      assert a + b == a;
    } else {
      assert (a + b)[..|a + b| - 1] == a + b[..|b| - 1];
      LogTextAppend(a, b[..|b| - 1]);
    }
  }

  /** catAppendOnlyGenericCommand */
  method CatCommand(dst: string, argv: Argv) returns (r: string)
    ensures r == dst + CommandText(argv)
  {
    hide Digits;
    r := dst + Header('*', |argv|);
    ghost var start := r;
    assert argv[0..] == argv && ArgsFrom(argv, 0) == [];
    for j := 0 to |argv|
      invariant r == start + ArgsFrom(argv, j)
    {
      hide ArgText;
      ArgsFromNext(argv, j);
      r := r + ArgText(argv[j]);
    }
    ArgsFromAll(argv, |argv|);
    assert argv[..|argv|] == argv;
  }

  function ArgsFrom(argv: Argv, j: nat): string
    requires j <= |argv|
  {
    if j == 0 then [] else ArgsFrom(argv, j - 1) + ArgText(argv[j - 1])
  }

  lemma ArgsFromNext(argv: Argv, j: nat)
    requires j < |argv|
    ensures ArgsFrom(argv, j + 1) == ArgsFrom(argv, j) + ArgText(argv[j])
  {
  }

  lemma {:induction false} ArgsFromAll(argv: Argv, j: nat)
    requires j <= |argv|
    ensures ArgsFrom(argv, j) == ArgsText(argv[..j])
    decreases j
  {
    hide ArgText;
    if j > 0 {
      ArgsFromAll(argv, j - 1);
      assert argv[..j] == argv[..j - 1] + [argv[j - 1]];
      ArgsTextAppend(argv[..j - 1], argv[j - 1]);
    }
  }

  lemma {:induction false} ArgsTextAppend(argv: Argv, arg: string)
    ensures ArgsText(argv + [arg]) == ArgsText(argv) + ArgText(arg)
    decreases |argv|
  {
    hide ArgText;
    if argv == [] {
      assert argv + [arg] == [arg] && [arg][1..] == [];
    } else {
      assert (argv + [arg])[1..] == argv[1..] + [arg];
      ArgsTextAppend(argv[1..], arg);
    }
  }

  /** The buffer and the selected database; `fed` holds the items since the file was opened. */
  class Feeder {
    var buf: string
    var selectedDb: Option<nat>
    ghost var fed: seq<Item>

    ghost predicate Valid()
      reads this
    {
      selectedDb == SelectedAfter(fed) && buf == LogText(WrittenAll(fed))
    }

    constructor ()
      ensures Valid() && fed == []
    {
      buf, selectedDb, fed := [], None, [];
    }

    /** feedAppendOnlyFile */
    method Feed(item: Item)
      requires Valid() && !item.Forget?
      modifies this
      ensures Valid() && fed == old(fed) + [item]
      ensures selectedDb == (if item.Ordinary? then Some(item.db) else old(selectedDb))
      ensures var select := if item.Ordinary? && old(selectedDb) != Some(item.db) then SelectCommand(item.db) else [];
        buf == old(buf) + (select + CommandText(item.argv))
    {
      hide CommandText, SelectCommand;
      if item.Ordinary? {
        SelectText(item.db);
      }
      var text := [];
      if item.Ordinary? && selectedDb != Some(item.db) {
        text := CatCommand(text, SelectArgv(item.db));
        selectedDb := Some(item.db);
      }
      text := CatCommand(text, item.argv);
      buf := buf + text;
      ghost var more := Written(SelectedAfter(fed), item);
      LogTextAppend(WrittenAll(fed), more);
      ShortLog(more);
      fed := fed + [item];
      assert fed[..|fed| - 1] == old(fed);
    }

    /**
      The file switch of a rewrite: the database is forgotten, the buffer reaches the file, and
      if the new file opens it starts empty.  Otherwise feeding goes on in the same file.
      */
    method SwitchFile(opens: bool) returns (file: string)
      requires Valid()
      modifies this
      ensures Valid() && file == LogText(WrittenAll(old(fed)))
      ensures fed == if opens then [] else old(fed) + [Forget]
    {
      selectedDb := None;
      file := buf;
      if opens {
        buf, fed := [], [];
      } else {
        fed := fed + [Forget];
        assert fed[..|fed| - 1] == old(fed);
        assert WrittenAll(fed) == WrittenAll(old(fed));
      }
    }
  }

  lemma ShortLog(cmds: seq<Argv>)
    ensures |cmds| == 1 ==> LogText(cmds) == CommandText(cmds[0])
    ensures |cmds| == 2 ==> LogText(cmds) == CommandText(cmds[0]) + CommandText(cmds[1])
  {
    hide CommandText;
    if |cmds| == 2 {
      assert cmds[..1][..0] == [] && LogText([]) == [];
      assert LogText(cmds[..1]) == CommandText(cmds[0]);
    } else if |cmds| == 1 {
      assert cmds[..0] == [];
    }
  }

  // ---- what the items mean ----

  /** Commands with their databases: those waiting in a transaction, and those run. */
  datatype Meaning = Meaning(queue: Option<seq<Cmd>>, data: seq<Cmd>)

  function Meant(m: Meaning, item: Item): Meaning
    requires HasWords(item)
  {
    match item
    case Forget => m
    case Ordinary(db, argv) =>
      if m.queue.Some? then m.(queue := Some(m.queue.value + [AofDisk.Cmd(db, argv)]))
      else m.(data := m.data + [AofDisk.Cmd(db, argv)])
    case Control(argv) =>
      if KindOf(argv).Exec? then
        if m.queue.Some? then Meaning(None, m.data + m.queue.value) else m
      else if m.queue.Some? then m
      else m.(queue := Some([]))
  }

  function MeantAll(items: seq<Item>): Meaning
    requires forall i :: 0 <= i < |items| ==> HasWords(items[i])
  {
    if items == [] then Meaning(None, []) else Meant(MeantAll(items[..|items| - 1]), items[|items| - 1])
  }

  // ---- the client follows the items ----

  /** The client with its queue run. */
  function Settled(c: FakeClient, dbnum: nat): FakeClient {
    if c.queue.Some? then RunQueue(c, c.queue.value, dbnum) else c
  }

  ghost predicate Agrees(c: FakeClient, selected: Option<nat>, m: Meaning, dbnum: nat) {
    var s := Settled(c, dbnum);
    && (c.queue.Some? <==> m.queue.Some?) && c.data == m.data
    && s.data == m.data + (if m.queue.Some? then m.queue.value else [])
    && (selected.Some? ==> s.db == selected.value)
  }

  lemma QueueMore(c: FakeClient, argv: Argv, dbnum: nat)
    requires c.queue.Some?
    ensures Settled(c.(queue := Some(c.queue.value + [argv])), dbnum).data == RunNow(Settled(c, dbnum), argv, dbnum).data
    ensures Settled(c.(queue := Some(c.queue.value + [argv])), dbnum).db == RunNow(Settled(c, dbnum), argv, dbnum).db
  {
    hide KindOf;
    var q := c.queue.value;
    assert (q + [argv])[..|q|] == q;
    QueueFieldIdle(c, c.(queue := Some(q + [argv])), q, dbnum);
  }

  /** Running a queue depends on the database and the data only. */
  lemma {:induction false} QueueFieldIdle(c: FakeClient, d: FakeClient, queue: seq<Argv>, dbnum: nat)
    requires c.db == d.db && c.data == d.data
    ensures RunQueue(c, queue, dbnum).db == RunQueue(d, queue, dbnum).db
    ensures RunQueue(c, queue, dbnum).data == RunQueue(d, queue, dbnum).data
    decreases |queue|
  {
    hide KindOf;
    if queue != [] {
      QueueFieldIdle(c, d, queue[..|queue| - 1], dbnum);
    }
  }

  lemma SelectKind(db: nat)
    requires db < 0x8000_0000
    ensures KindOf(SelectArgv(db)) == Select(db) && Writable(SelectArgv(db))
  {
    ValueOfDigits(db);
    HeaderShort('$', db);
    var w := SelectWord();
    assert ToLower(w) == SelectName() by {
      assert forall i :: 0 <= i < 6 ==> ToLower(w)[i] == SelectName()[i];
    }
    assert |w| == 6;
    hide SelectWord, SelectName, ToLower;
  }

  /** SELECT is a known command, and databases are numbered by a C integer. */
  ghost predicate SetupOk(setup: Setup) {
    setup.dbnum <= 0x8000_0000 && forall db: nat :: db < setup.dbnum ==> setup.known(SelectArgv(db))
  }

  lemma SelectAgrees(c: FakeClient, selected: Option<nat>, m: Meaning, dbnum: nat, db: nat)
    requires Agrees(c, selected, m, dbnum) && db < dbnum <= 0x8000_0000
    ensures Agrees(Run(c, SelectArgv(db), dbnum), Some(db), m, dbnum)
  {
    SelectKind(db);
    hide KindOf, SelectArgv, RunQueue;
    if c.queue.Some? {
      QueueMore(c, SelectArgv(db), dbnum);
    }
  }

  lemma OrdinaryAgrees(c: FakeClient, m: Meaning, dbnum: nat, db: nat, argv: Argv)
    requires Agrees(c, Some(db), m, dbnum) && argv != [] && KindOf(argv).Other?
    ensures Agrees(Run(c, argv, dbnum), Some(db), Meant(m, Ordinary(db, argv)), dbnum)
  {
    hide KindOf, RunQueue;
    if c.queue.Some? {
      QueueMore(c, argv, dbnum);
    }
  }

  lemma ControlAgrees(c: FakeClient, selected: Option<nat>, m: Meaning, dbnum: nat, argv: Argv)
    requires Agrees(c, selected, m, dbnum) && argv != [] && (KindOf(argv).Multi? || KindOf(argv).Exec?)
    ensures Agrees(Run(c, argv, dbnum), selected, Meant(m, Control(argv)), dbnum)
  {
    hide KindOf;
    if c.queue.Some? {
      if KindOf(argv).Multi? {
        hide RunQueue;
        QueueMore(c, argv, dbnum);
      } else {
        hide RunQueue;
      }
    }
  }

  lemma ForgetAgrees(c: FakeClient, selected: Option<nat>, m: Meaning, dbnum: nat)
    requires Agrees(c, selected, m, dbnum)
    ensures Agrees(c, None, m, dbnum) && Meant(m, Forget) == m
  {
    hide KindOf, Settled;
  }

  lemma ItemAgrees(setup: Setup, c: FakeClient, selected: Option<nat>, m: Meaning, item: Item)
    requires SetupOk(setup) && ItemOk(setup, item) && Agrees(c, selected, m, setup.dbnum)
    ensures forall i :: 0 <= i < |Written(selected, item)| ==> Written(selected, item)[i] != []
    ensures Agrees(RunAll(c, Written(selected, item), setup.dbnum), Selected(selected, item), Meant(m, item), setup.dbnum)
  {
    hide KindOf, Agrees, Run, Meant, Writable;
    var cmds := Written(selected, item);
    if item.Forget? {
      ForgetAgrees(c, selected, m, setup.dbnum);
    } else if item.Control? {
      ControlAgrees(c, selected, m, setup.dbnum, item.argv);
      assert cmds[..0] == [];
    } else if selected == Some(item.db) {
      OrdinaryAgrees(c, m, setup.dbnum, item.db, item.argv);
      assert cmds[..0] == [];
    } else {
      SelectAgrees(c, selected, m, setup.dbnum, item.db);
      var d := Run(c, SelectArgv(item.db), setup.dbnum);
      OrdinaryAgrees(d, m, setup.dbnum, item.db, item.argv);
      assert cmds[..1] == [SelectArgv(item.db)] && cmds[..1][..0] == [];
      assert RunAll(c, cmds[..1], setup.dbnum) == d;
    }
  }

  lemma {:induction false} RunAllAppend(c: FakeClient, a: seq<Argv>, b: seq<Argv>, dbnum: nat)
    requires forall i :: 0 <= i < |a| ==> a[i] != []
    requires forall i :: 0 <= i < |b| ==> b[i] != []
    ensures RunAll(c, a + b, dbnum) == RunAll(RunAll(c, a, dbnum), b, dbnum)
    decreases |b|
  {
    hide Run;
    if b == [] {
      assert a + b == a;
    } else {
      assert (a + b)[..|a + b| - 1] == a + b[..|b| - 1];
      RunAllAppend(c, a, b[..|b| - 1], dbnum);
    }
  }

  lemma WrittenOk(setup: Setup, selected: Option<nat>, item: Item)
    requires SetupOk(setup) && ItemOk(setup, item)
    ensures LogOk(setup, Written(selected, item))
  {
    hide KindOf, Writable;
    if item.Ordinary? {
      SelectKind(item.db);
    }
  }

  lemma {:induction false} WrittenAllOk(setup: Setup, items: seq<Item>)
    requires SetupOk(setup) && ItemsOk(setup, items)
    ensures LogOk(setup, WrittenAll(items))
    decreases |items|
  {
    hide Written, ItemOk, Writable;
    if items != [] {
      WrittenAllOk(setup, items[..|items| - 1]);
      WrittenOk(setup, SelectedAfter(items[..|items| - 1]), items[|items| - 1]);
    }
  }

  /** Whatever database the fresh client starts in, it follows the items. */
  lemma {:induction false} ItemsAgree(setup: Setup, items: seq<Item>, db: nat)
    requires SetupOk(setup) && ItemsOk(setup, items)
    ensures LogOk(setup, WrittenAll(items))
    ensures Agrees(RunAll(Fresh(db), WrittenAll(items), setup.dbnum), SelectedAfter(items), MeantAll(items), setup.dbnum)
    decreases |items|
  {
    WrittenAllOk(setup, items);
    if items != [] {
      var short, last := items[..|items| - 1], items[|items| - 1];
      ItemsAgree(setup, short, db);
      var c := RunAll(Fresh(db), WrittenAll(short), setup.dbnum);
      ItemAgrees(setup, c, SelectedAfter(short), MeantAll(short), last);
      hide Written, ItemOk, Agrees, Meant, Run, Writable;
      RunAllAppend(Fresh(db), WrittenAll(short), Written(SelectedAfter(short), last), setup.dbnum);
    }
  }

  /**
    A file holding what was fed since it was opened loads, from a fresh client in
    any database, to exactly the commands fed, each in its own database; those
    of a transaction that is still open are left out, and then the load is not plain.
    */
  lemma FedFileLoads(setup: Setup, items: seq<Item>, db: nat)
    requires SetupOk(setup) && ItemsOk(setup, items)
    ensures var r := LoadFrom(setup, LogText(WrittenAll(items)), Start(db));
      && r.client.data == MeantAll(items).data
      && (r.status == Loaded <==> MeantAll(items).queue.None?)
  {
    ItemsAgree(setup, items, db);
    var cmds := WrittenAll(items);
    var file := LogText(cmds);
    hide KindOf, WrittenAll, MeantAll, LogText, LoadFrom, RunAll, RunQueue, Writable, LogOk, LastMulti;
    AllLoads(setup, cmds, db);
  }

  /** A whole log runs all its commands. */
  lemma AllLoads(setup: Setup, cmds: seq<Argv>, db: nat)
    requires LogOk(setup, cmds)
    ensures var r := LoadFrom(setup, LogText(cmds), Start(db));
      r.client == RunAll(Fresh(db), cmds, setup.dbnum) && (r.status == Loaded <==> r.client.queue.None?)
  {
    hide LogText, LoadFrom, RunAll, LastMulti;
    var file := LogText(cmds);
    CutLoads(setup, cmds, db, |file|);
    assert file[..|file|] == file && cmds[..|cmds|] == cmds;
    EndsOrder(cmds, Whole(cmds, |file|, 0));
  }

  /** Only all commands together reach the end of the text. */
  lemma EndsOrder(cmds: seq<Argv>, m: nat)
    requires m <= |cmds| && End(cmds, m) <= |LogText(cmds)| && (m < |cmds| ==> |LogText(cmds)| < End(cmds, m + 1))
    ensures m == |cmds| && End(cmds, m) == |LogText(cmds)|
  {
    assert cmds[..|cmds|] == cmds;
    if m < |cmds| {
      TextFrom(cmds, m + 1);
    }
  }

  /** Without transactions the data is the fed commands, one by one. */
  lemma {:induction false} PlainMeaning(items: seq<Item>)
    requires forall i :: 0 <= i < |items| ==> items[i].Ordinary? && items[i].argv != []
    ensures MeantAll(items).queue.None? && |MeantAll(items).data| == |items|
    ensures forall i :: 0 <= i < |items| ==> MeantAll(items).data[i] == AofDisk.Cmd(items[i].db, items[i].argv)
    decreases |items|
  {
    if items != [] {
      PlainMeaning(items[..|items| - 1]);
    }
  }
}
