/**
  The calls of the server as runs of single steps, and exactly when a call leaves the log
  recoverable.
  */
module AofCalls {
  import opened Wrappers
  import opened FileLog
  import opened AofDisk
  import opened AofRewriteSpec
  import opened AofRecover
  import opened AofRuns

  // ---- calls are runs ----

  /** Where the actions lead, if the code takes them one after the other. */
  function Exec(m: Machine, actions: seq<Action>): Option<Machine>
    decreases |actions|
  {
    if actions == [] then Some(m)
    else if Enabled(m, actions[0]) then Exec(Perform(m, actions[0]), actions[1..])
    else None
  }

  lemma {:induction false} ExecKeeps(m: Machine, actions: seq<Action>)
    requires MachineInv(m) && Exec(m, actions).Some?
    ensures MachineInv(Exec(m, actions).value)
    decreases |actions|
  {
    hide MachineInv, Enabled, Perform;
    if actions != [] {
      ActionKeeps(m, actions[0]);
      ExecKeeps(Perform(m, actions[0]), actions[1..]);
    }
  }

  lemma {:induction false} ExecAppend(m: Machine, a: seq<Action>, b: seq<Action>)
    requires Exec(m, a).Some?
    ensures Exec(m, a + b) == Exec(Exec(m, a).value, b)
    decreases |a|
  {
    hide Enabled, Perform;
    if a == [] {
      assert a + b == b;
    } else {
      ExecAppend(Perform(m, a[0]), a[1..], b);
      assert (a + b)[0] == a[0] && (a + b)[1..] == a[1..] + b;
    }
  }

  lemma ExecOne(m: Machine, a: Action)
    requires Enabled(m, a)
    ensures Exec(m, [a]) == Some(Perform(m, a))
  {
    hide Enabled, Perform;
    assert [a][1..] == [];
  }

  /** One more action at the end. */
  lemma ExecNext(m: Machine, actions: seq<Action>, a: Action)
    requires Exec(m, actions).Some? && Enabled(Exec(m, actions).value, a)
    ensures Exec(m, actions + [a]) == Some(Perform(Exec(m, actions).value, a))
  {
    hide Enabled, Perform, Exec;
    ExecAppend(m, actions, [a]);
    ExecOne(Exec(m, actions).value, a);
  }

  lemma NoActions(m: Machine)
    ensures Exec(m, []) == Some(m)
  {
  }

  /** The steps of rewriteAppendOnlyFileBackground. */
  function StartActions(s: State, env: StartEnv): seq<Action> {
    if s.child.Some? || !env.dirOk then []
    else
      var begun := [BeginRewrite(FlushCount(|s.buf|, env.flush))] + [Open(env.openOk)];
      if !env.openOk then begun
      else if !env.persist.PersistOk? then begun + [PersistIncr(env.persist)]
      else begun + [PersistIncr(env.persist)] + [Switch] + [Fork(env.forkOk)]
  }

  lemma StartedIsRun(s: State, env: StartEnv)
    ensures Exec(Machine(s, Idle), StartActions(s, env)) == Some(Machine(Started(s, env), Idle))
  {
    hide Exec, Truncated, PersistedIncr, Switched, Forked, Grown;
    var m := Machine(s, Idle);
    NoActions(m);
    if s.child.None? && env.dirOk {
      var begin := [BeginRewrite(FlushCount(|s.buf|, env.flush))];
      ExecOne(m, begin[0]);
      ExecNext(m, begin, Open(env.openOk));
      if env.openOk {
        var begun := begin + [Open(env.openOk)];
        ExecNext(m, begun, PersistIncr(env.persist));
        if env.persist.PersistOk? {
          ExecNext(m, begun + [PersistIncr(env.persist)], Switch);
          ExecNext(m, begun + [PersistIncr(env.persist)] + [Switch], Fork(env.forkOk));
        }
      }
    }
  }

  /** The unlinks of aofDelHistoryFiles. */
  function Unlinks(hist: seq<Id>, removed: set<Id>): seq<Action> {
    if hist == [] then [] else [UnlinkNext(hist[0] in removed)] + Unlinks(hist[1..], removed)
  }

  function Unlinked(s: State, removed: set<Id>): State {
    Forgotten(s.(files := s.files - (HistorySet(s) * removed)))
  }

  lemma UnlinkedNext(s: State, removed: set<Id>)
    requires s.am.hist != []
    ensures var t := Dropped(s, s.am.hist[0] in removed);
            Unlinked(t, removed) == Unlinked(s, removed) && (|s.am.hist| == 1 ==> t == Unlinked(s, removed))
  {
    var hist := s.am.hist;
    assert hist == [hist[0]] + hist[1..];
    assert HistorySet(s) == {hist[0]} + set id | id in hist[1..];
  }

  lemma {:induction false} UnlinksAreRun(s: State, removed: set<Id>)
    requires s.am.hist != []
    ensures Exec(Machine(s, Collecting), Unlinks(s.am.hist, removed)) == Some(Machine(Unlinked(s, removed), AtPersistSame))
    decreases |s.am.hist|
  {
    hide Exec, Unlinked;
    var hist := s.am.hist;
    var a := UnlinkNext(hist[0] in removed);
    var t := Dropped(s, a.ok);
    ExecOne(Machine(s, Collecting), a);
    ExecAppend(Machine(s, Collecting), [a], Unlinks(hist[1..], removed));
    UnlinkedNext(s, removed);
    hide Dropped;
    if |hist| == 1 {
      NoActions(Machine(t, AtPersistSame));
    } else {
      UnlinksAreRun(t, removed);
    }
  }

  /** The steps of aofDelHistoryFiles. */
  function GcActions(hist: seq<Id>, env: GcEnv): seq<Action> {
    if !env.autoGc || hist == [] then [] else Unlinks(hist, env.removed) + [PersistSame(env.persist)]
  }

  function GcPlace(s: State, env: GcEnv): Pc { if env.autoGc && s.am.hist != [] then Collecting else Idle }

  lemma CollectedIsRun(s: State, env: GcEnv)
    ensures Exec(Machine(s, GcPlace(s, env)), GcActions(s.am.hist, env)) == Some(Machine(Collected(s, env), Idle))
  {
    hide Exec, HistorySet, PersistedSame, Forgotten;
    if !env.autoGc || s.am.hist == [] {
      NoActions(Machine(s, Idle));
    } else {
      UnlinksAreRun(s, env.removed);
      ExecNext(Machine(s, Collecting), Unlinks(s.am.hist, env.removed), PersistSame(env.persist));
    }
  }

  /** The steps of backgroundRewriteDoneHandler. */
  function FinishActions(s: State, env: DoneEnv): seq<Action>
    requires s.am.incr != []
  {
    var done := [ChildDone(env.exitOk)];
    if !env.exitOk then done
    else if !env.renameOk then done + [Rename(false, env.rdb)]
    else
      var persisted := done + [Rename(true, env.rdb)] + [PersistBase(env.persist)];
      if env.persist.PersistOk? then
        persisted + [Adopt(env.gc.autoGc)] + GcActions(Rewritten(s.am, env.rdb).hist, env.gc)
      else persisted + [Undo(env.unlinkOk)]
  }

  lemma FinishedIsRun(s: State, env: DoneEnv)
    requires Inv(s) && s.child.Some?
    ensures s.am.incr != [] &&
            Exec(Machine(s, Idle), FinishActions(s, env)) == Some(Machine(Finished(s, env), Idle))
  {
    hide Inv, Exec, Renamed, Installed;
    MemoryLast(s);
    var m, done, snapshot := Machine(s, Idle), [ChildDone(env.exitOk)], s.child.value;
    ExecOne(m, done[0]);
    if env.exitOk {
      ExecNext(m, done, Rename(env.renameOk, env.rdb));
      if env.renameOk {
        InstalledIsRun(s, env);
      }
    }
  }

  /** From the rename on. */
  lemma InstalledIsRun(s: State, env: DoneEnv)
    requires Inv(s) && s.child.Some? && env.exitOk && env.renameOk && s.am.incr != []
    ensures Exec(Machine(s, Idle), FinishActions(s, env)) == Some(Machine(Installed(s.(child := None), env, s.child.value), Idle))
  {
    hide Inv, Exec, GcActions, Collected, Rewritten;
    var m, done, snapshot := Machine(s, Idle), [ChildDone(true)], s.child.value;
    ExecOne(m, done[0]);
    ExecNext(m, done, Rename(true, env.rdb));
    var renamed := done + [Rename(true, env.rdb)];
    ExecNext(m, renamed, PersistBase(env.persist));
    var persisted := renamed + [PersistBase(env.persist)];
    var r := Renamed(s.(child := None), env.rdb, snapshot);
    if env.persist.PersistOk? {
      ExecNext(m, persisted, Adopt(env.gc.autoGc));
      var t := Adopted(PersistedBase(r, env.rdb));
      ExecAppend(m, persisted + [Adopt(env.gc.autoGc)], GcActions(t.am.hist, env.gc));
      CollectedIsRun(t, env.gc);
    } else {
      ExecNext(m, persisted, Undo(env.unlinkOk));
      UndoneIs(s, env);
    }
  }

  lemma UndoneIs(s: State, env: DoneEnv)
    requires Inv(s) && s.child.Some? && s.am.incr != [] && !env.persist.PersistOk?
    ensures var r := Renamed(s.(child := None), env.rdb, s.child.value);
            var p := if env.persist.NotRenamed? then r else PersistedBase(r, env.rdb);
            (if env.unlinkOk then Undone(p, env.rdb) else p) == Installed(s.(child := None), env, s.child.value)
  {
    hide Inv, Rewritten;
    BaseInUse(s);
    RewrittenShapeHere(s, env.rdb);
  }

  lemma BaseInUse(s: State)
    requires Inv(s) && s.child.Some?
    ensures s.disk.Some? && s.disk.value.base == s.am.base && s.am.base.n == s.am.currBase && !s.broken
  {
  }

  lemma RewrittenShapeHere(s: State, rdb: bool)
    requires s.am.incr != []
    ensures Rewritten(s.am, rdb).base == NextBase(s, rdb)
  {
  }

  // ---- so the calls keep the invariant ----

  lemma StartedKeeps(s: State, env: StartEnv)
    requires Inv(s)
    ensures Inv(Started(s, env))
  {
    hide Inv, Exec, Started, StartActions, MachineInv;
    IdleOk(s);
    StartedIsRun(s, env);
    ExecKeeps(Machine(s, Idle), StartActions(s, env));
    Standing(Machine(Started(s, env), Idle));
  }

  lemma FinishedKeeps(s: State, env: DoneEnv)
    requires Inv(s) && s.child.Some?
    ensures s.am.incr != [] && Inv(Finished(s, env))
  {
    hide Inv, Exec, Finished, FinishActions, MachineInv;
    IdleOk(s);
    FinishedIsRun(s, env);
    ExecKeeps(Machine(s, Idle), FinishActions(s, env));
    Standing(Machine(Finished(s, env), Idle));
  }

  lemma CollectedKeeps(s: State, env: GcEnv)
    requires Inv(s)
    ensures Inv(Collected(s, env))
  {
    hide Inv, Exec, Collected, GcActions, MachineInv, Unlinks;
    Stands(s, GcPlace(s, env));
    CollectedIsRun(s, env);
    ExecKeeps(Machine(s, GcPlace(s, env)), GcActions(s.am.hist, env));
    Standing(Machine(Collected(s, env), Idle));
  }

  // ---- exactly when a call leaves the log recoverable ----

  /** Only a stray first INCR spoils a first start. */
  lemma FreshRecoversIff(files: Files, rdb: bool)
    ensures Recovers(Fresh(files, rdb)) <==> Content(files, IncrId(1)) == []
  {
    hide Inv, Recovers;
    FreshInv(files, rdb);
    RecoversIffClean(Fresh(files, rdb));
  }

  /** The files of the manifest in memory hold exactly what was written. */
  predicate MemoryReplays(s: State) { Replay(Some(s.am), s.files) == Some(s.written) }

  lemma MemoryReplaysIff(s: State)
    requires Inv(s)
    ensures MemoryReplays(s) <==> s.amMark.ahead == []
  {
    TracksReplay(s.am, s.files, s.fd, s.written, s.amMark.p, s.amMark.ahead);
    hide Tracks, Good, Replay;
  }

  /** What the child saves and what the current INCR holds are together exactly what was written. */
  predicate ChildReplays(s: State)
    requires s.child.Some?
  {
    s.child.value + Content(s.files, IncrId(s.fd)) == s.written
  }

  lemma ChildReplaysIff(s: State)
    requires Inv(s) && s.child.Some?
    ensures ChildReplays(s) <==> s.childMark.ahead == []
  {
    hide Tracks, Good;
    var w, p, ahead := s.written, s.childMark.p, s.childMark.ahead;
    assert s.child.value + Content(s.files, IncrId(s.fd)) == w[..p] + ahead + w[p..];
    if ahead == [] {
      assert w[..p] + ahead + w[p..] == w;
    } else {
      assert |w[..p] + ahead + w[p..]| > |w|;
    }
  }

  /** The start of a rewrite gets as far as a new manifest on disk. */
  predicate Relists(s: State, env: StartEnv) {
    s.child.None? && env.dirOk && env.openOk && !env.persist.NotRenamed?
  }

  lemma StartClean(s: State, env: StartEnv)
    ensures Clean(Started(s, env)) <==> if Relists(s, env) then s.amMark.ahead == [] else Clean(s)
  {
    hide NewIncr, Grown;
  }

  /** Starting a rewrite never loses a recoverable log, and a new manifest repairs a broken one. */
  lemma StartRecoversIff(s: State, env: StartEnv)
    requires Inv(s)
    ensures Recovers(Started(s, env)) <==> if Relists(s, env) then MemoryReplays(s) else Recovers(s)
  {
    hide Inv, Recovers, Started, Clean, Relists, MemoryReplays;
    StartedKeeps(s, env);
    RecoversIffClean(s);
    RecoversIffClean(Started(s, env));
    StartClean(s, env);
    MemoryReplaysIff(s);
  }

  lemma StartLast(s: State, env: StartEnv)
    requires Inv(s)
    ensures FdLast(Started(s, env)) <==> if Relists(s, env) then env.persist.PersistOk? else FdLast(s)
  {
    MemoryLast(s);
    assert s.am.currIncr >= s.fd;
    hide Inv, Grown, Flushed;
    if s.child.None? && env.dirOk {
      FlushedSame(s, FlushCount(|s.buf|, env.flush));
    }
  }

  lemma FlushedSame(s: State, n: nat)
    requires n <= |s.buf|
    ensures Flushed(s, n).am == s.am && Flushed(s, n).fd == s.fd && Flushed(s, n).disk == s.disk
  {
    hide Grown;
  }

  /** A directory sync that fails after a new INCR is listed leaves a log that a torn write makes unloadable. */
  lemma StartCrashRecoversIff(s: State, env: StartEnv, lenient: bool)
    requires Inv(s)
    ensures CrashRecovers(Started(s, env), true, lenient) <==>
              lenient && if Relists(s, env) then MemoryReplays(s) && env.persist.PersistOk? else Recovers(s) && FdLast(s)
  {
    hide Inv, Recovers, CrashRecovers, Started, Clean, Relists, MemoryReplays, FdLast;
    StartedKeeps(s, env);
    CrashRecoversIff(Started(s, env), true, lenient);
    RecoversIffClean(Started(s, env));
    StartRecoversIff(s, env);
    StartLast(s, env);
  }

  /** Such a log loads after a clean stop, and not after a crash in the middle of a write. */
  lemma DirSyncFailureExposesTornWrites(rdb: bool, lenient: bool)
    ensures var s := Started(Fresh(map[], rdb), StartEnv(true, All, true, DirSyncFailed, true));
            Recovers(s) && !CrashRecovers(s, true, lenient)
  {
    var first, env := Fresh(map[], rdb), StartEnv(true, All, true, DirSyncFailed, true);
    FreshInv(map[], rdb);
    MemoryReplaysIff(first);
    hide Inv, Recovers, CrashRecovers, Started, MemoryReplays;
    StartRecoversIff(first, env);
    StartCrashRecoversIff(first, env, lenient);
  }

  /** The end of a rewrite gets as far as a new manifest on disk. */
  predicate Replaces(env: DoneEnv) { env.exitOk && env.renameOk && !env.persist.NotRenamed? }

  lemma DoneClean(s: State, env: DoneEnv)
    requires s.child.Some? && s.am.incr != [] && !s.broken
    ensures Clean(Finished(s, env)) <==>
              if Replaces(env) then s.childMark.ahead == [] && !(env.persist.DirSyncFailed? && env.unlinkOk) else Clean(s)
  {
    hide Rewritten;
  }

  /** A finished rewrite leaves the log recoverable iff its snapshot fits and its base is not unlinked. */
  lemma DoneRecoversIff(s: State, env: DoneEnv)
    requires Inv(s) && s.child.Some?
    ensures s.am.incr != []
    ensures Recovers(Finished(s, env)) <==>
              if Replaces(env) then ChildReplays(s) && !(env.persist.DirSyncFailed? && env.unlinkOk) else Recovers(s)
  {
    hide Inv, Recovers, Finished, Clean, Replaces, ChildReplays;
    FinishedKeeps(s, env);
    BaseInUse(s);
    RecoversIffClean(s);
    RecoversIffClean(Finished(s, env));
    DoneClean(s, env);
    ChildReplaysIff(s);
  }

  /** A rewrite whose manifest is renamed but whose directory sync fails leaves nothing to load. */
  lemma DirSyncFailureLosesTheBase(files: Files, rdb: bool)
    ensures var s := Started(Fresh(files, rdb), StartEnv(true, All, true, PersistOk, true));
            s.child.Some? && s.am.incr != [] &&
            var t := Finished(s, DoneEnv(true, rdb, true, DirSyncFailed, true, GcEnv(true, {}, PersistOk)));
            Replay(t.disk, t.files) == None
  {
    var s := Started(Fresh(files, rdb), StartEnv(true, All, true, PersistOk, true));
    var t := Finished(s, DoneEnv(true, rdb, true, DirSyncFailed, true, GcEnv(true, {}, PersistOk)));
    assert Live(t.disk.value)[0] == BaseId(2, rdb);
  }

  // ---- a whole rewrite ----

  datatype Write = FeedOne(cmd: Cmd) | FlushSome(n: nat)

  function Written(s: State, w: Write): State {
    match w
    case FeedOne(cmd) => Fed(s, cmd)
    case FlushSome(n) => Flushed(s, if n < |s.buf| then n else |s.buf|)
  }

  /** What clients write while the child runs. */
  function AfterWrites(s: State, ws: seq<Write>): State
    decreases |ws|
  {
    if ws == [] then s else AfterWrites(Written(s, ws[0]), ws[1..])
  }

  lemma {:induction false} WritesKeep(s: State, ws: seq<Write>)
    requires Inv(s)
    ensures var t := AfterWrites(s, ws); Inv(t) && t.child == s.child && t.childMark == s.childMark
    decreases |ws|
  {
    hide Inv, Grown;
    if ws != [] {
      match ws[0] {
        case FeedOne(cmd) => FeedKeeps(s, cmd);
        case FlushSome(n) => FlushKeeps(s, if n < |s.buf| then n else |s.buf|);
      }
      WritesKeep(Written(s, ws[0]), ws[1..]);
    }
  }

  /** What a fork leaves for later: the commands the forced flush did not get out. */
  lemma ForkedAhead(s: State, env: StartEnv)
    requires s.child.None? && Started(s, env).child.Some?
    ensures Started(s, env).childMark.ahead == s.buf[FlushCount(|s.buf|, env.flush)..]
  {
    hide NewIncr, Grown;
  }

  /** A rewrite that ends well leaves a recoverable log iff the forced flush at its start got everything out. */
  lemma RewriteRecoversIff(s: State, start: StartEnv, ws: seq<Write>, done: DoneEnv)
    requires Inv(s) && s.child.None? && Started(s, start).child.Some? && Replaces(done) && done.persist.PersistOk?
    ensures var t := AfterWrites(Started(s, start), ws);
            t.child.Some? && t.am.incr != [] &&
            (Recovers(Finished(t, done)) <==> FlushCount(|s.buf|, start.flush) == |s.buf|)
  {
    hide Inv, Recovers, Finished, Started, AfterWrites, Replaces, ChildReplays;
    StartedKeeps(s, start);
    ForkedAhead(s, start);
    WritesKeep(Started(s, start), ws);
    var t := AfterWrites(Started(s, start), ws);
    DoneRecoversIff(t, done);
    ChildReplaysIff(t);
  }

  lemma ShortFlushForks(files: Files, rdb: bool, cmd: Cmd)
    ensures var s := Started(Fed(Fresh(files, rdb), cmd), StartEnv(true, Part(0), true, PersistOk, true));
            s.child == Some([cmd]) && s.buf == [cmd] && s.written == [] && s.fd == 2 &&
            s.am.incr == [1, 2] && s.am.currBase == 1 && Content(s.files, IncrId(2)) == []
  {
  }

  lemma InstalledFiles(s: State, rdb: bool)
    requires s.child.Some? && s.fd == 2 && s.am.incr == [1, 2] && s.am.currBase == 1
    ensures var t := Finished(s, DoneEnv(true, rdb, true, PersistOk, true, GcEnv(false, {}, PersistOk)));
            t.disk.Some? && Live(t.disk.value) == [BaseId(2, rdb), IncrId(2)] && t.fd == 2 && t.buf == s.buf &&
            t.written == s.written && t.files == s.files[BaseId(2, rdb) := s.child.value]
  {
  }

  /** One command, a forced flush that fails, and a rewrite that ends well: a restart runs the command twice. */
  lemma ShortFlushRunsTwice(files: Files, rdb: bool, cmd: Cmd)
    ensures var s := Started(Fed(Fresh(files, rdb), cmd), StartEnv(true, Part(0), true, PersistOk, true));
            s.child.Some? && s.am.incr != [] &&
            var t := Finished(s, DoneEnv(true, rdb, true, PersistOk, true, GcEnv(false, {}, PersistOk)));
            |t.buf| == 1 &&
            var u := Flushed(t, 1);
            u.written == [cmd] && Replay(u.disk, u.files) == Some([cmd, cmd])
  {
    hide Started, Finished, Live;
    ShortFlushForks(files, rdb, cmd);
    var s := Started(Fed(Fresh(files, rdb), cmd), StartEnv(true, Part(0), true, PersistOk, true));
    InstalledFiles(s, rdb);
    var t := Finished(s, DoneEnv(true, rdb, true, PersistOk, true, GcEnv(false, {}, PersistOk)));
    var u := Flushed(t, 1);
    ConcatTwo(u.files, BaseId(2, rdb), IncrId(2));
    assert t.buf[..1] == [cmd];
    assert Content(t.files, IncrId(2)) == [];
    assert Content(u.files, IncrId(2)) == [cmd] && Content(u.files, BaseId(2, rdb)) == [cmd];
    assert [cmd] + [cmd] == [cmd, cmd];
  }
}
