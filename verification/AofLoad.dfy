/**
  Loading one append-only file: commands run on a fake client, transactions are
  queued until EXEC, and a file that ends too early is cut back.
  */
module AofLoad {
  import opened Wrappers
  import opened Decimal
  import opened SdsText
  import opened AofText
  import AofDisk

  type Cmd = AofDisk.Cmd

  // ---- what commands do to the fake client ----

  datatype Kind = Select(db: nat) | Multi | Exec | Other

  function SelectName(): string { "select" }
  function MultiName(): string { "multi" }
  function ExecName(): string { "exec" }

  function KindOf(argv: Argv): Kind
    requires argv != []
  {
    var name := ToLower(argv[0]);
    if name == SelectName() && |argv| == 2 && argv[1] != [] && AllDigits(argv[1]) then Select(Value(argv[1]))
    else if name == MultiName() then Multi
    else if name == ExecName() then Exec
    else Other
  }

  /** The selected database, the queue of an open transaction, and the commands run so far. */
  datatype FakeClient = FakeClient(db: nat, queue: Option<seq<Argv>>, data: seq<Cmd>)

  /** A command that is run at once. */
  function RunNow(c: FakeClient, argv: Argv, dbnum: nat): FakeClient {
    if argv == [] then c
    else
      match KindOf(argv)
      case Select(db) => if db < dbnum then c.(db := db) else c
      case Multi => c
      case Exec => c
      case Other => c.(data := c.data + [AofDisk.Cmd(c.db, argv)])
  }

  function RunQueue(c: FakeClient, queue: seq<Argv>, dbnum: nat): FakeClient {
    if queue == [] then c
    else RunNow(RunQueue(c, queue[..|queue| - 1], dbnum), queue[|queue| - 1], dbnum)
  }

  /** One command of the file: inside a transaction everything but EXEC is queued. */
  function Run(c: FakeClient, argv: Argv, dbnum: nat): FakeClient
    requires argv != []
  {
    var kind := KindOf(argv);
    if c.queue.Some? && !kind.Exec? then c.(queue := Some(c.queue.value + [argv]))
    else if kind.Exec? && c.queue.Some? then RunQueue(c, c.queue.value, dbnum).(queue := None)
    else if kind.Multi? then c.(queue := Some([]))
    else RunNow(c, argv, dbnum)
  }

  function RunAll(c: FakeClient, cmds: seq<Argv>, dbnum: nat): FakeClient
    requires forall i :: 0 <= i < |cmds| ==> cmds[i] != []
  {
    if cmds == [] then c else Run(RunAll(c, cmds[..|cmds| - 1], dbnum), cmds[|cmds| - 1], dbnum)
  }

  // ---- the loader ----

  /** Settings and outcomes: aof-load-truncated, the number of databases, the known commands, and the truncate call. */
  datatype Setup = Setup(loadTruncated: bool, dbnum: nat, known: Argv -> bool, truncateOk: bool)

  datatype Status = Loaded | Truncated | Failed

  datatype Outcome = Outcome(status: Status, client: FakeClient, length: nat)

  datatype Progress = Progress(pos: nat, client: FakeClient, validUpTo: nat, validBeforeMulti: nat)

  function UnexpectedEnd(setup: Setup, file: string, client: FakeClient, valid: nat): Outcome {
    if setup.loadTruncated && setup.truncateOk then Outcome(Truncated, client, valid)
    else Outcome(Failed, client, |file|)
  }

  /** One command has been read: it is run, and the offsets move. */
  function Step(setup: Setup, p: Progress, argv: Argv, used: nat): Progress
    requires argv != []
  {
    Progress(p.pos + used, Run(p.client, argv, setup.dbnum),
             if setup.loadTruncated then p.pos + used else p.validUpTo,
             if KindOf(argv).Multi? then p.validUpTo else p.validBeforeMulti)
  }

  /** The rest of the load. */
  function LoadFrom(setup: Setup, file: string, p: Progress): Outcome
    requires p.pos <= |file|
    decreases |file| - p.pos
  {
    if p.pos == |file| then
      if p.client.queue.Some? then UnexpectedEnd(setup, file, p.client, p.validBeforeMulti)
      else Outcome(Loaded, p.client, |file|)
    else
      match ReadEntry(file[p.pos..])
      case Short => UnexpectedEnd(setup, file, p.client, p.validUpTo)
      case Bad => Outcome(Failed, p.client, |file|)
      case Read(None, used) => LoadFrom(setup, file, p.(pos := p.pos + used))
      case Read(Some(argv), used) =>
        if argv == [] || !setup.known(argv) then Outcome(Failed, p.client, |file|)
        else LoadFrom(setup, file, Step(setup, p, argv, used))
  }

  function Fresh(db: nat): FakeClient { FakeClient(db, None, []) }

  function Start(db: nat): Progress { Progress(0, Fresh(db), 0, 0) }

  /** loadSingleAppendOnlyFile, from the point where the file is known not to be in RDB format. */
  method LoadSingle(setup: Setup, file: string, db: nat) returns (r: Outcome)
    ensures r == LoadFrom(setup, file, Start(db))
  {
    hide ReadEntry, Run, KindOf;
    var pos, validUpTo, validBeforeMulti := 0, 0, 0;
    var client := Fresh(db);
    while pos < |file|
      invariant pos <= |file|
      invariant LoadFrom(setup, file, Start(db)) == LoadFrom(setup, file, Progress(pos, client, validUpTo, validBeforeMulti))
      decreases |file| - pos
    {
      var entry := ReadEntry(file[pos..]);
      match entry {
        case Short =>
          return UnexpectedEnd(setup, file, client, validUpTo);
        case Bad =>
          return Outcome(Failed, client, |file|);
        case Read(None, used) =>
          pos := pos + used;
        case Read(Some(argv), used) =>
          if argv == [] || !setup.known(argv) {
            return Outcome(Failed, client, |file|);
          }
          if KindOf(argv).Multi? {
            validBeforeMulti := validUpTo;
          }
          client := Run(client, argv, setup.dbnum);
          pos := pos + used;
          if setup.loadTruncated {
            validUpTo := pos;
          }
      }
    }
    if client.queue.Some? {
      return UnexpectedEnd(setup, file, client, validBeforeMulti);
    }
    return Outcome(Loaded, client, |file|);
  }

  // ---- logs of commands ----

  function LogText(cmds: seq<Argv>): string {
    if cmds == [] then [] else LogText(cmds[..|cmds| - 1]) + CommandText(cmds[|cmds| - 1])
  }

  ghost predicate LogOk(setup: Setup, cmds: seq<Argv>) {
    forall i :: 0 <= i < |cmds| ==> cmds[i] != [] && Writable(cmds[i]) && setup.known(cmds[i])
  }

  /** Where the first `i` commands end. */
  function End(cmds: seq<Argv>, i: nat): nat
    requires i <= |cmds|
  {
    |LogText(cmds[..i])|
  }

  lemma EndNext(cmds: seq<Argv>, i: nat)
    requires i < |cmds|
    ensures LogText(cmds[..i + 1]) == LogText(cmds[..i]) + CommandText(cmds[i])
  {
    assert cmds[..i + 1][..i] == cmds[..i];
  }

  lemma {:induction false} TextFrom(cmds: seq<Argv>, i: nat)
    requires i <= |cmds|
    ensures LogText(cmds[..i]) <= LogText(cmds)
    decreases |cmds| - i
  {
    if i < |cmds| {
      EndNext(cmds, i);
      TextFrom(cmds, i + 1);
    } else {
      assert cmds[..i] == cmds;
    }
  }

  /** How many commands lie wholly within the first `n` characters. */
  ghost function Whole(cmds: seq<Argv>, n: nat, i: nat): (m: nat)
    requires i <= |cmds| && End(cmds, i) <= n
    ensures i <= m <= |cmds| && End(cmds, m) <= n
    ensures m < |cmds| ==> n < End(cmds, m + 1)
    decreases |cmds| - i
  {
    if i == |cmds| || n < End(cmds, i + 1) then i else Whole(cmds, n, i + 1)
  }

  /** The last MULTI among the first `i` commands. */
  ghost function LastMulti(cmds: seq<Argv>, i: nat): (j: nat)
    requires i <= |cmds| && forall k :: 0 <= k < |cmds| ==> cmds[k] != []
    ensures j <= i
  {
    if i == 0 then 0 else if KindOf(cmds[i - 1]).Multi? then i - 1 else LastMulti(cmds, i - 1)
  }

  ghost function After(setup: Setup, cmds: seq<Argv>, db: nat, i: nat): FakeClient
    requires i <= |cmds| && LogOk(setup, cmds)
  {
    RunAll(Fresh(db), cmds[..i], setup.dbnum)
  }

  /** The loader's variables when `i` commands have been read. */
  ghost function At(setup: Setup, cmds: seq<Argv>, db: nat, i: nat): Progress
    requires i <= |cmds| && LogOk(setup, cmds)
  {
    Progress(End(cmds, i), After(setup, cmds, db, i), if setup.loadTruncated then End(cmds, i) else 0,
             if setup.loadTruncated then End(cmds, LastMulti(cmds, i)) else 0)
  }

  lemma AtNext(setup: Setup, cmds: seq<Argv>, db: nat, i: nat)
    requires i < |cmds| && LogOk(setup, cmds)
    ensures Step(setup, At(setup, cmds, db, i), cmds[i], |CommandText(cmds[i])|) == At(setup, cmds, db, i + 1)
  {
    hide CommandText, Run, KindOf;
    EndNext(cmds, i);
    assert cmds[..i + 1][..i] == cmds[..i];
  }

  /** The file from the end of `i` commands on, as far as it goes. */
  lemma FileFrom(cmds: seq<Argv>, n: nat, i: nat)
    requires i < |cmds| && End(cmds, i) <= n <= |LogText(cmds)|
    ensures End(cmds, i + 1) == End(cmds, i) + |CommandText(cmds[i])| <= |LogText(cmds)|
    ensures var file, text, at := LogText(cmds)[..n], CommandText(cmds[i]), End(cmds, i);
      if n < at + |text| then file[at..] == text[..n - at]
      else file[at..] == text + file[at + |text|..]
  {
    hide CommandText;
    EndNext(cmds, i);
    TextFrom(cmds, i + 1);
    var all, text, at := LogText(cmds), CommandText(cmds[i]), End(cmds, i);
    assert all[at..at + |text|] == text by {
      assert all[..at + |text|] == LogText(cmds[..i]) + text;
    }
    hide LogText;
    if n < at + |text| {
      assert all[..n][at..] == all[at..at + |text|][..n - at];
    } else {
      assert all[..n][at..] == all[at..at + |text|] + all[..n][at + |text|..];
    }
  }

  lemma EntryAt(setup: Setup, cmds: seq<Argv>, n: nat, i: nat)
    requires LogOk(setup, cmds) && i < |cmds| && End(cmds, i + 1) <= n <= |LogText(cmds)|
    ensures var at := End(cmds, i);
      at < n && ReadEntry(LogText(cmds)[..n][at..]) == Read(Some(cmds[i]), |CommandText(cmds[i])|)
  {
    hide LogText, CommandText, ReadEntry;
    EndsStrict(cmds, i);
    FileFrom(cmds, n, i);
    CommandReads(cmds[i], LogText(cmds)[..n][End(cmds, i + 1)..]);
  }

  lemma {:induction false} LoadsTo(setup: Setup, cmds: seq<Argv>, db: nat, n: nat, i: nat)
    requires LogOk(setup, cmds) && n <= |LogText(cmds)| && i <= |cmds| && End(cmds, i) <= n
    ensures var file := LogText(cmds)[..n];
      LoadFrom(setup, file, At(setup, cmds, db, i)) == LoadFrom(setup, file, At(setup, cmds, db, Whole(cmds, n, i)))
    decreases |cmds| - i
  {
    if i < |cmds| && End(cmds, i + 1) <= n {
      EntryAt(setup, cmds, n, i);
      AtNext(setup, cmds, db, i);
      hide ReadEntry, CommandText, Step, At, LogText;
      LoadsTo(setup, cmds, db, n, i + 1);
    }
  }

  /** In an open transaction nothing has been run since its MULTI. */
  lemma {:induction false} OpenSinceMulti(setup: Setup, cmds: seq<Argv>, db: nat, i: nat)
    requires i <= |cmds| && LogOk(setup, cmds) && After(setup, cmds, db, i).queue.Some?
    ensures After(setup, cmds, db, LastMulti(cmds, i)).data == After(setup, cmds, db, i).data
    decreases i
  {
    hide KindOf, RunNow, RunQueue;
    if i > 0 {
      assert cmds[..i][..i - 1] == cmds[..i - 1];
      var before := After(setup, cmds, db, i - 1);
      assert After(setup, cmds, db, i) == Run(before, cmds[i - 1], setup.dbnum);
      RunOpens(before, cmds[i - 1], setup.dbnum);
      if !KindOf(cmds[i - 1]).Multi? {
        OpenSinceMulti(setup, cmds, db, i - 1);
      }
    }
  }

  lemma RunOpens(c: FakeClient, argv: Argv, dbnum: nat)
    requires argv != [] && Run(c, argv, dbnum).queue.Some?
    ensures Run(c, argv, dbnum).data == c.data && (c.queue.Some? || KindOf(argv).Multi?)
  {
    hide KindOf;
  }

  /**
    A log cut at any character: what has been run is what the whole commands
    run, an unfinished transaction left out. The load succeeds if the cut is at
    the end of a command outside a transaction; otherwise it fails, or, with
    aof-load-truncated, cuts the file at the end of a command.
    */
  lemma CutLoads(setup: Setup, cmds: seq<Argv>, db: nat, n: nat)
    requires LogOk(setup, cmds) && n <= |LogText(cmds)|
    ensures End(cmds, 0) == 0
    ensures var m := Whole(cmds, n, 0);
      var r := LoadFrom(setup, LogText(cmds)[..n], Start(db));
      && r.client == After(setup, cmds, db, m)
      && if End(cmds, m) == n && r.client.queue.None? then r.status == Loaded && r.length == n
         else if setup.loadTruncated && setup.truncateOk then
           r.status == Truncated && r.length == End(cmds, if End(cmds, m) < n then m else LastMulti(cmds, m))
         else r.status == Failed && r.length == n
  {
    assert cmds[..0] == [];
    assert At(setup, cmds, db, 0) == Start(db);
    LoadsTo(setup, cmds, db, n, 0);
    hide LogText, After, LastMulti, LoadFrom;
    var m := Whole(cmds, n, 0);
    if End(cmds, m) < n {
      CutWithin(cmds, n, m, setup);
      LoadsShort(setup, LogText(cmds)[..n], At(setup, cmds, db, m));
    } else {
      LoadsEnd(setup, LogText(cmds)[..n], At(setup, cmds, db, m));
    }
  }

  lemma LoadsShort(setup: Setup, file: string, p: Progress)
    requires p.pos < |file| && ReadEntry(file[p.pos..]) == Short
    ensures LoadFrom(setup, file, p) == UnexpectedEnd(setup, file, p.client, p.validUpTo)
  {
    hide ReadEntry;
  }

  lemma LoadsEnd(setup: Setup, file: string, p: Progress)
    requires p.pos == |file|
    ensures LoadFrom(setup, file, p) ==
      if p.client.queue.Some? then UnexpectedEnd(setup, file, p.client, p.validBeforeMulti)
      else Outcome(Loaded, p.client, |file|)
  {
  }

  lemma CutWithin(cmds: seq<Argv>, n: nat, m: nat, setup: Setup)
    requires LogOk(setup, cmds) && m <= |cmds| && End(cmds, m) < n <= |LogText(cmds)|
    requires m < |cmds| ==> n < End(cmds, m + 1)
    ensures ReadEntry(LogText(cmds)[..n][End(cmds, m)..]) == Short
  {
    assert cmds[..|cmds|] == cmds;
    FileFrom(cmds, n, m);
    CutCommand(cmds[m], n - End(cmds, m));
  }

  lemma {:induction false} WholeAt(cmds: seq<Argv>, j: nat, i: nat)
    requires i <= j <= |cmds| && End(cmds, i) <= End(cmds, j)
    requires forall k :: 0 <= k < |cmds| ==> End(cmds, k) < End(cmds, k + 1)
    ensures Whole(cmds, End(cmds, j), i) == j
    decreases j - i
  {
    hide LogText;
    if i < j {
      EndsGrow(cmds, i + 1, j);
      WholeAt(cmds, j, i + 1);
    }
  }

  lemma {:induction false} EndsGrow(cmds: seq<Argv>, i: nat, j: nat)
    requires i <= j <= |cmds| && forall k :: 0 <= k < |cmds| ==> End(cmds, k) < End(cmds, k + 1)
    ensures End(cmds, i) <= End(cmds, j)
    decreases j - i
  {
    hide LogText;
    if i < j {
      EndsGrow(cmds, i + 1, j);
    }
  }

  lemma EndsStrict(cmds: seq<Argv>, k: nat)
    requires k < |cmds|
    ensures End(cmds, k) < End(cmds, k + 1)
  {
    EndNext(cmds, k);
  }

  /**
    After a cut load the file ends at the end of a command, and loading it
    again runs the same commands.
    */
  lemma ReloadSame(setup: Setup, cmds: seq<Argv>, db: nat, n: nat)
    requires LogOk(setup, cmds) && setup.loadTruncated && setup.truncateOk && n <= |LogText(cmds)|
    ensures var r := LoadFrom(setup, LogText(cmds)[..n], Start(db));
      && r.status != Failed && r.length <= n && (exists j :: 0 <= j <= |cmds| && r.length == End(cmds, j))
      && LoadFrom(setup, LogText(cmds)[..n][..r.length], Start(db)).status != Failed
      && LoadFrom(setup, LogText(cmds)[..n][..r.length], Start(db)).client.data == r.client.data
  {
    hide LogText, LoadFrom, After, LastMulti;
    CutLoads(setup, cmds, db, n);
    var m := Whole(cmds, n, 0);
    var r := LoadFrom(setup, LogText(cmds)[..n], Start(db));
    var j := if r.client.queue.Some? && End(cmds, m) == n then LastMulti(cmds, m) else m;
    forall k | 0 <= k < |cmds| ensures End(cmds, k) < End(cmds, k + 1) {
      EndsStrict(cmds, k);
    }
    EndsGrow(cmds, j, m);
    EndsGrow(cmds, 0, j);
    assert r.length == End(cmds, j);
    assert LogText(cmds)[..n][..r.length] == LogText(cmds)[..r.length];
    CutLoads(setup, cmds, db, r.length);
    WholeAt(cmds, j, 0);
    if j != m {
      OpenSinceMulti(setup, cmds, db, m);
    }
  }

  // ---- files that are refused ----

  /** The file from the end of `i` commands on. */
  lemma FileOn(cmds: seq<Argv>, rest: string, i: nat)
    requires i < |cmds|
    ensures var file, text, at := LogText(cmds) + rest, CommandText(cmds[i]), End(cmds, i);
      && at < End(cmds, i + 1) == at + |text| <= |file| && file[at..] == text + file[at + |text|..]
  {
    hide CommandText;
    EndNext(cmds, i);
    TextFrom(cmds, i + 1);
    EndsStrict(cmds, i);
    var file, text, at := LogText(cmds) + rest, CommandText(cmds[i]), End(cmds, i);
    var start := LogText(cmds[..i]) + text;
    assert start <= LogText(cmds) && start <= file;
    hide LogText;
    assert file == start + file[|start|..];
    assert file[at..] == start[at..] + file[|start|..];
  }

  lemma {:induction false} LoadsThrough(setup: Setup, cmds: seq<Argv>, db: nat, rest: string, i: nat)
    requires LogOk(setup, cmds) && i <= |cmds|
    ensures var file := LogText(cmds) + rest;
      && End(cmds, i) <= |file| && End(cmds, |cmds|) <= |file|
      && LoadFrom(setup, file, At(setup, cmds, db, i)) == LoadFrom(setup, file, At(setup, cmds, db, |cmds|))
    decreases |cmds| - i
  {
    hide LoadFrom, ReadEntry, CommandText, Step, LogText;
    TextFrom(cmds, i);
    TextFrom(cmds, |cmds|);
    if i < |cmds| {
      FileOn(cmds, rest, i);
      var file, text, at := LogText(cmds) + rest, CommandText(cmds[i]), End(cmds, i);
      CommandReads(cmds[i], file[at + |text|..]);
      AtNext(setup, cmds, db, i);
      LoadsThrough(setup, cmds, db, rest, i + 1);
      LoadsOne(setup, file, At(setup, cmds, db, i), cmds[i], |text|);
    }
  }

  lemma LoadsOne(setup: Setup, file: string, p: Progress, argv: Argv, used: nat)
    requires p.pos < p.pos + used <= |file| && ReadEntry(file[p.pos..]) == Read(Some(argv), used)
    requires argv != [] && setup.known(argv)
    ensures LoadFrom(setup, file, p) == LoadFrom(setup, file, Step(setup, p, argv, used))
  {
    hide ReadEntry, Run, KindOf;
  }

  lemma RestDecides(setup: Setup, cmds: seq<Argv>, db: nat, rest: string)
    requires LogOk(setup, cmds)
    ensures var file, n := LogText(cmds) + rest, |LogText(cmds)|;
      && At(setup, cmds, db, |cmds|).pos == n && file[n..] == rest
      && LoadFrom(setup, file, Start(db)) == LoadFrom(setup, file, At(setup, cmds, db, |cmds|))
  {
    assert cmds[..0] == [] && cmds[..|cmds|] == cmds;
    assert At(setup, cmds, db, 0) == Start(db);
    hide LogText, LoadFrom;
    LoadsThrough(setup, cmds, db, rest, 0);
  }

  /** A command that the server does not know fails the load, whatever is allowed to be cut and whatever follows. */
  lemma UnknownCommandFails(setup: Setup, cmds: seq<Argv>, bad: Argv, more: string, db: nat)
    requires LogOk(setup, cmds) && Writable(bad) && !setup.known(bad)
    ensures var file := LogText(cmds) + (CommandText(bad) + more);
      var r := LoadFrom(setup, file, Start(db)); r.status == Failed && r.length == |file|
  {
    CommandReads(bad, more);
    RestDecides(setup, cmds, db, CommandText(bad) + more);
    hide LogText, At, ReadEntry, CommandText;
  }

  /** And so does text that is no command. */
  lemma BadTextFails(setup: Setup, cmds: seq<Argv>, bad: string, db: nat)
    requires LogOk(setup, cmds) && bad != [] && bad[0] != '*' && bad[0] != '#'
    ensures var file := LogText(cmds) + bad; LoadFrom(setup, file, Start(db)).status == Failed
  {
    OtherIsBad(bad);
    RestDecides(setup, cmds, db, bad);
    hide LogText, At, ReadEntry;
  }

  // ---- transactions ----

  /** The words that the loader knows, in any case. */
  lemma WordsAre()
    ensures KindOf(["MULTI"]) == Multi && KindOf(["EXEC"]) == Exec
    ensures KindOf(["SELECT", "7"]) == Select(7)
  {
    KindIs(["MULTI"], "multi");
    KindIs(["EXEC"], "exec");
    KindIs(["SELECT", "7"], "select");
    Seven();
    hide KindOf, ToLower, Value;
  }

  lemma Seven()
    ensures AllDigits("7") && Value("7") == 7
  {
    assert "7"[..0] == [] && Value([]) == 0;
  }

  lemma KindIs(argv: Argv, lower: string)
    requires argv != [] && |argv[0]| == |lower| && forall i :: 0 <= i < |lower| ==> ToLowerChar(argv[0][i]) == lower[i]
    ensures lower == "multi" ==> KindOf(argv) == Multi
    ensures lower == "exec" ==> KindOf(argv) == Exec
    ensures lower == "select" && |argv| == 2 && argv[1] != [] && AllDigits(argv[1]) ==> KindOf(argv) == Select(Value(argv[1]))
  {
    Lowers(argv[0], lower);
    assert MultiName()[0] == 'm' && ExecName()[0] == 'e' && SelectName()[0] == 's';
    hide ToLower, Value;
  }

  lemma Lowers(w: string, lower: string)
    requires |w| == |lower| && forall i :: 0 <= i < |w| ==> ToLowerChar(w[i]) == lower[i]
    ensures ToLower(w) == lower
  {
  }

  /** Commands that are neither SELECT nor part of a transaction's frame. */
  ghost predicate Plain(cmds: seq<Argv>) { forall i :: 0 <= i < |cmds| ==> cmds[i] != [] && KindOf(cmds[i]).Other? }

  function InDb(db: nat, cmds: seq<Argv>): (r: seq<Cmd>)
    ensures |r| == |cmds| && forall i :: 0 <= i < |r| ==> r[i] == AofDisk.Cmd(db, cmds[i])
  {
    seq(|cmds|, i requires 0 <= i < |cmds| => AofDisk.Cmd(db, cmds[i]))
  }

  lemma {:induction false} QueueRuns(c: FakeClient, cmds: seq<Argv>, dbnum: nat)
    requires Plain(cmds)
    ensures RunQueue(c, cmds, dbnum) == c.(data := c.data + InDb(c.db, cmds))
    decreases |cmds|
  {
    hide KindOf;
    if cmds == [] {
      assert c.data + InDb(c.db, cmds) == c.data;
    } else {
      var short, last := cmds[..|cmds| - 1], cmds[|cmds| - 1];
      QueueRuns(c, short, dbnum);
      assert InDb(c.db, cmds) == InDb(c.db, short) + [AofDisk.Cmd(c.db, last)];
    }
  }

  lemma {:induction false} Queued(c: FakeClient, multi: Argv, cmds: seq<Argv>, dbnum: nat)
    requires multi != [] && KindOf(multi).Multi? && c.queue.None? && Plain(cmds)
    ensures RunAll(c, [multi] + cmds, dbnum) == c.(queue := Some(cmds))
    decreases |cmds|
  {
    hide KindOf, RunNow, RunQueue;
    if cmds == [] {
      assert [multi] + cmds == [multi] && [multi][..0] == [];
      assert RunAll(c, [], dbnum) == c;
    } else {
      var short, last := cmds[..|cmds| - 1], cmds[|cmds| - 1];
      Queued(c, multi, short, dbnum);
      var all := [multi] + cmds;
      assert all[..|all| - 1] == [multi] + short && all[|all| - 1] == last && short + [last] == cmds;
    }
  }

  /** The commands between MULTI and EXEC run together at EXEC, in the database selected, and without EXEC not at all. */
  lemma TransactionRuns(c: FakeClient, cmds: seq<Argv>, dbnum: nat)
    requires c.queue.None? && Plain(cmds)
    ensures RunAll(c, [["MULTI"]] + cmds, dbnum).data == c.data
    ensures RunAll(c, [["MULTI"]] + cmds + [["EXEC"]], dbnum) == c.(data := c.data + InDb(c.db, cmds))
  {
    WordsAre();
    Queued(c, ["MULTI"], cmds, dbnum);
    QueueRuns(c.(queue := Some(cmds)), cmds, dbnum);
    var all := [["MULTI"]] + cmds + [["EXEC"]];
    assert all[..|all| - 1] == [["MULTI"]] + cmds;
    hide KindOf, RunNow, RunQueue;
  }
}
