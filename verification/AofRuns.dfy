/**
  Whole runs of the log, one system call or assignment at a time.  Where the server
  stands in its code decides which step comes next; the outcome of each call is part
  of the step, and the process can crash between any two of them.
  */
module AofRuns {
  import opened Wrappers
  import opened FileLog
  import opened AofDisk
  import opened AofRewriteSpec
  import opened AofRecover

  /** What the server does next. */
  datatype Pc =
    | Idle
    | BootBase | BootIncr | BootPersist                        // aofOpenIfNeededOnServerStart, no manifest yet
    | AtOpen | AtPersistIncr | AtSwitch | AtFork               // rewriteAppendOnlyFileBackground
    | AtRename(snapshot: seq<Cmd>)                             // backgroundRewriteDoneHandler, with the child's file
    | AtPersistBase(rdb: bool, snapshot: seq<Cmd>) | AtUndo(rdb: bool) | AtAdopt
    | Collecting | AtPersistSame                               // aofDelHistoryFiles

  datatype Machine = Machine(s: State, pc: Pc)

  datatype Action =
    | CreateBase | OpenFirst | PersistFirst
    | Feed(cmd: Cmd) | Flush(n: nat)
    | BeginRewrite(n: nat) | Open(ok: bool) | PersistIncr(persist: Persist) | Switch | Fork(ok: bool)
    | ChildDone(ok: bool) | Rename(ok: bool, rdb: bool) | PersistBase(persist: Persist) | Undo(ok: bool) | Adopt(gc: bool)
    | BeginCollect | UnlinkNext(ok: bool) | PersistSame(persist: Persist)
    | Crash(torn: bool, lenient: bool, rdb: bool)

  /** When the code takes a step: its place in the code and the tests it makes itself. */
  predicate Enabled(m: Machine, a: Action) {
    match a
    case CreateBase => m.pc.BootBase?
    case OpenFirst => m.pc.BootIncr?
    case PersistFirst => m.pc.BootPersist?
    case Feed(_) => m.pc.Idle?
    case Flush(n) => m.pc.Idle? && n <= |m.s.buf|
    case BeginRewrite(n) => m.pc.Idle? && m.s.child.None? && n <= |m.s.buf|
    case Open(_) => m.pc.AtOpen?
    case PersistIncr(_) => m.pc.AtPersistIncr?
    case Switch => m.pc.AtSwitch?
    case Fork(_) => m.pc.AtFork?
    case ChildDone(_) => m.pc.Idle? && m.s.child.Some?
    case Rename(_, _) => m.pc.AtRename?
    case PersistBase(_) => m.pc.AtPersistBase? && m.s.am.incr != []
    case Undo(_) => m.pc.AtUndo?
    case Adopt(_) => m.pc.AtAdopt? && m.s.disk.Some?
    case BeginCollect => m.pc.Idle? && m.s.am.hist != []
    case UnlinkNext(_) => m.pc.Collecting? && m.s.am.hist != []
    case PersistSame(_) => m.pc.AtPersistSame?
    case Crash(torn, lenient, _) =>
      && (torn ==> Writing(m.pc) && m.s.buf != [])
      && Load(m.s.disk, m.s.files, Torn(m.s, torn), lenient).Some?
      && (m.s.disk.Some? ==> m.s.disk.value.incr != [])
  }

  /** The places where the buffer is written to the file. */
  predicate Writing(pc: Pc) { pc.Idle? || pc.AtOpen? }

  function Perform(m: Machine, a: Action): Machine
    requires Enabled(m, a)
  {
    var s := m.s;
    match a
    case CreateBase => Machine(s.(files := s.files[s.am.base := []]), BootIncr)
    case OpenFirst => Machine(s.(files := s.files[IncrId(s.fd) := Content(s.files, IncrId(s.fd))]), BootPersist)
    case PersistFirst =>
      var mark := Mark(0, Content(s.files, IncrId(s.fd)));
      Machine(s.(disk := Some(s.am), amMark := mark, diskMark := mark), Idle)
    case Feed(cmd) => Machine(Fed(s, cmd), Idle)
    case Flush(n) => Machine(Flushed(s, n), Idle)
    case BeginRewrite(n) => Machine(Flushed(s, n), AtOpen)
    case Open(ok) => if ok then Machine(Truncated(s), AtPersistIncr) else Machine(s, Idle)
    case PersistIncr(p) =>
      if p.NotRenamed? then Machine(s, Idle) else Machine(PersistedIncr(s), if p.PersistOk? then AtSwitch else Idle)
    case Switch => Machine(Switched(s), AtFork)
    case Fork(ok) => Machine(if ok then Forked(s) else s, Idle)
    case ChildDone(ok) => Machine(s.(child := None), if ok then AtRename(s.child.value) else Idle)
    case Rename(ok, rdb) =>
      if ok then Machine(Renamed(s, rdb, m.pc.snapshot), AtPersistBase(rdb, m.pc.snapshot)) else Machine(s, Idle)
    case PersistBase(p) =>
      Machine(if p.NotRenamed? then s else PersistedBase(s, m.pc.rdb), if p.PersistOk? then AtAdopt else AtUndo(m.pc.rdb))
    case Undo(ok) => Machine(if ok then Undone(s, m.pc.rdb) else s, Idle)
    case Adopt(gc) => Machine(Adopted(s), if gc && Adopted(s).am.hist != [] then Collecting else Idle)
    case BeginCollect => Machine(s, Collecting)
    case UnlinkNext(ok) => Machine(Dropped(s, ok), if |s.am.hist| == 1 then AtPersistSame else Collecting)
    case PersistSame(p) => Machine(if p.NotRenamed? then s else PersistedSame(s), Idle)
    case Crash(_, _, rdb) => if s.disk.None? then Boot(s.files, rdb) else Machine(Restarted(s), Idle)
  }

  /** A start without a manifest. */
  function Boot(files: Files, rdb: bool): Machine {
    Machine(State(files, None, FirstView(rdb), 1, [], [], None, [], Mark(0, []), Mark(0, []), Mark(0, []), false), BootBase)
  }

  /** The unlink of the new base; the disk is broken by it if the manifest with that base is in place. */
  function Undone(s: State, rdb: bool): State {
    var base := NextBase(s, rdb);
    s.(files := s.files - {base}, broken := s.broken || (s.disk.Some? && s.disk.value.base == base))
  }

  /** One turn of the loop in aofDelHistoryFiles. */
  function Dropped(s: State, ok: bool): State
    requires s.am.hist != []
  {
    s.(files := if ok then s.files - {s.am.hist[0]} else s.files, am := s.am.(hist := s.am.hist[1..]))
  }

  // ---- what holds at each place in the code ----

  predicate Booting(pc: Pc) { pc.BootBase? || pc.BootIncr? || pc.BootPersist? }

  predicate BootOk(s: State, pc: Pc) {
    && s.disk.None? && s.child.None? && !s.broken && s.written == s.buf == s.dataset == []
    && s.am.base.BaseId? && s.am == FirstView(s.am.base.rdb) && s.fd == 1
    && s.amMark == s.diskMark == s.childMark == Mark(0, [])
    && (pc.BootIncr? || pc.BootPersist? ==> s.am.base in s.files && s.files[s.am.base] == [])
    && (pc.BootPersist? ==> IncrId(1) in s.files)
  }

  /** The unlink on the failure path finds the new base listed by the disk, or by nobody. */
  predicate UndoOk(s: State, rdb: bool) {
    || (NewBaseListed(s) && s.disk.value.base == NextBase(s, rdb))
    || (NextBase(s, rdb) !in Live(s.am) && s.disk.Some? && NextBase(s, rdb) !in Live(s.disk.value))
  }

  ghost predicate PlaceOk(s: State, pc: Pc) {
    match pc
    case AtOpen => s.child.None?
    case AtPersistIncr => s.child.None? && NextEmpty(s)
    case AtSwitch => ReadyToSwitch(s)
    case AtFork => ReadyToFork(s)
    case AtRename(snapshot) => ChildExited(s, snapshot)
    case AtPersistBase(rdb, snapshot) =>
      && ChildExited(s, snapshot) && BaseThere(s, rdb, snapshot)
      && NextBase(s, rdb) !in Live(s.am) && s.disk.Some? && NextBase(s, rdb) !in Live(s.disk.value)
    case AtUndo(rdb) => UndoOk(s, rdb)
    case AtAdopt => NewBaseListed(s)
    case _ => true
  }

  ghost predicate MachineInv(m: Machine) {
    if Booting(m.pc) then BootOk(m.s, m.pc) else Inv(m.s) && PlaceOk(m.s, m.pc)
  }

  // ---- every step keeps it ----

  lemma PersistFirstKeeps(m: Machine)
    requires MachineInv(m) && m.pc.BootPersist?
    ensures Inv(Perform(m, PersistFirst).s)
  {
    var s := m.s;
    var t := Perform(m, PersistFirst).s;
    FreshInv(s.files, s.am.base.rdb);
    hide Inv;
    assert s.files[BaseId(1, s.am.base.rdb) := []][IncrId(1) := Content(s.files, IncrId(1))] == s.files;
    assert t == Fresh(s.files, s.am.base.rdb);
  }

  lemma RenamePlace(s: State, rdb: bool, snapshot: seq<Cmd>)
    requires Inv(s) && ChildExited(s, snapshot)
    ensures PlaceOk(Renamed(s, rdb, snapshot), AtPersistBase(rdb, snapshot))
  {
    hide Inv, ChildExited, Live, BaseThere, Renamed;
    RenameReady(s, rdb, snapshot);
  }

  lemma PersistBasePlace(s: State, rdb: bool, snapshot: seq<Cmd>)
    requires Inv(s) && ChildExited(s, snapshot) && s.am.incr != []
    ensures NewBaseListed(PersistedBase(s, rdb)) && UndoOk(PersistedBase(s, rdb), rdb)
  {
    hide Inv, ChildExited, Live, NewBaseListed, Rewritten, Good;
    PersistBaseListed(s, rdb, snapshot);
    NewBaseShape(s, rdb);
  }

  /** What a machine outside its start-up knows. */
  lemma Standing(m: Machine)
    requires MachineInv(m) && !Booting(m.pc)
    ensures Inv(m.s) && PlaceOk(m.s, m.pc)
  {
    hide Inv, PlaceOk;
  }

  lemma Stands(s: State, pc: Pc)
    requires Inv(s) && PlaceOk(s, pc) && !Booting(pc)
    ensures MachineInv(Machine(s, pc))
  {
    hide Inv, PlaceOk;
  }

  lemma UndoStep(s: State, rdb: bool)
    requires Inv(s) && UndoOk(s, rdb)
    ensures Inv(Undone(s, rdb))
    ensures !(s.disk.Some? && s.disk.value.base == NextBase(s, rdb)) ==> ListedSurvive(s, Undone(s, rdb))
  {
    var base := NextBase(s, rdb);
    if s.disk.Some? && s.disk.value.base == base {
      assert Live(s.disk.value)[0] == base;
      BreakKeeps(s);
      assert Undone(s, rdb) == Broken(s);
    } else {
      UnlinkKeeps(s, base);
      assert Undone(s, rdb) == s.(files := s.files - {base});
    }
  }

  lemma DropStep(s: State, ok: bool)
    requires Inv(s) && s.am.hist != []
    ensures Inv(Dropped(s, ok)) && ListedSurvive(s, Dropped(s, ok))
  {
    var id := s.am.hist[0];
    HistoryIsNotLive(s, id);
    SameFilesSurvive(s, s.(am := s.am.(hist := s.am.hist[1..])));
    hide Inv, Live, ListedSurvive;
    if ok {
      UnlinkKeeps(s, id);
      ForgetSome(s.(files := s.files - {id}), 1);
      DropSurvives(s, s.(files := s.files - {id}), Dropped(s, ok));
    } else {
      ForgetSome(s, 1);
    }
  }

  lemma DropSurvives(s: State, u: State, t: State)
    requires ListedSurvive(s, u) && t.files == u.files
    ensures ListedSurvive(s, t)
  {
    hide Live;
  }

  lemma CrashStep(m: Machine, a: Action)
    requires MachineInv(m) && a.Crash? && Enabled(m, a)
    ensures MachineInv(Perform(m, a)) && ListedSurvive(m.s, Perform(m, a).s)
  {
    hide Tolerated, Replay, Live, PlaceOk;
    if m.s.disk.Some? {
      assert !Booting(m.pc);
      hide Inv, ListedSurvive;
      RestartKeeps(m.s);
      IdleOk(Restarted(m.s));
    }
  }

  lemma IdleOk(s: State)
    requires Inv(s)
    ensures MachineInv(Machine(s, Idle))
  {
    hide Inv;
  }

  /** The unlink that breaks the disk: the base it removes is the one the disk lists. */
  predicate BreaksDisk(m: Machine, a: Action) {
    a == Undo(true) && m.pc.AtUndo? && m.s.disk.Some? && m.s.disk.value.base == NextBase(m.s, m.pc.rdb)
  }

  lemma RewriteStep(m: Machine, a: Action)
    requires MachineInv(m) && Enabled(m, a)
    requires a.BeginRewrite? || a.Open? || a.PersistIncr?
    ensures MachineInv(Perform(m, a)) && ListedSurvive(m.s, Perform(m, a).s)
  {
    hide MachineInv, Inv, NextEmpty, ReadyToSwitch, ListedSurvive, Flushed, Truncated, PersistedIncr, Load;
    var s, t := m.s, Perform(m, a);
    Standing(m);
    SameFilesSurvive(s, s);
    match a {
      case BeginRewrite(n) => FlushKeeps(s, n); FlushSurvives(s, n); FlushChildless(s, n);
      case Open(ok) => if ok { TruncateKeeps(s); }
      case PersistIncr(p) => PersistIncrKeeps(s);
    }
    Stands(t.s, t.pc);
  }

  lemma FlushChildless(s: State, n: nat)
    requires n <= |s.buf|
    ensures Flushed(s, n).child == s.child
  {
    hide Grown;
  }

  lemma SwitchSurvives(s: State)
    ensures ListedSurvive(s, Switched(s)) && ListedSurvive(s, Forked(s)) && ListedSurvive(s, s)
  {
    hide ListedSurvive, NewIncr;
    SameFilesSurvive(s, Switched(s));
    SameFilesSurvive(s, Forked(s));
    SameFilesSurvive(s, s);
  }

  lemma SwitchStep(m: Machine, a: Action)
    requires MachineInv(m) && Enabled(m, a) && (a.Switch? || a.Fork?)
    ensures MachineInv(Perform(m, a)) && ListedSurvive(m.s, Perform(m, a).s)
  {
    hide MachineInv, Inv, ReadyToSwitch, ReadyToFork, ListedSurvive, Switched, Forked, Load;
    var s, t := m.s, Perform(m, a);
    Standing(m);
    SwitchSurvives(s);
    match a {
      case Switch => SwitchKeeps(s);
      case Fork(ok) => ForkKeeps(s);
    }
    Stands(t.s, t.pc);
  }

  lemma ExitStep(m: Machine, a: Action)
    requires MachineInv(m) && Enabled(m, a) && (a.ChildDone? || a.Rename?)
    ensures MachineInv(Perform(m, a)) && ListedSurvive(m.s, Perform(m, a).s)
  {
    hide MachineInv, Inv, ListedSurvive, ChildExited, Renamed, Load, BaseThere;
    var s, t := m.s, Perform(m, a);
    Standing(m);
    SameFilesSurvive(s, s.(child := None));
    SameFilesSurvive(s, s);
    if a.ChildDone? {
      ExitKeeps(s);
      assert PlaceOk(t.s, t.pc);
    } else if a.ok {
      RenameKeeps(s, a.rdb, m.pc.snapshot);
        RenamePlace(s, a.rdb, m.pc.snapshot);
    }
    Stands(t.s, t.pc);
  }

  lemma PersistBaseStep(m: Machine, a: Action)
    requires MachineInv(m) && Enabled(m, a) && a.PersistBase?
    ensures MachineInv(Perform(m, a)) && ListedSurvive(m.s, Perform(m, a).s)
  {
    hide MachineInv, Inv, ListedSurvive, ChildExited, BaseThere, Live, PersistedBase, NewBaseListed, Load;
    var s, t := m.s, Perform(m, a);
    Standing(m);
    SameFilesSurvive(s, s);
    if a.persist.NotRenamed? {
      assert PlaceOk(t.s, t.pc);
    } else {
      PersistBaseKeeps(s, m.pc.rdb, m.pc.snapshot);
      PersistBasePlace(s, m.pc.rdb, m.pc.snapshot);
    }
    Stands(t.s, t.pc);
  }

  lemma UndoOrAdoptStep(m: Machine, a: Action)
    requires MachineInv(m) && Enabled(m, a) && (a.Undo? || a.Adopt?)
    ensures MachineInv(Perform(m, a))
    ensures !BreaksDisk(m, a) ==> ListedSurvive(m.s, Perform(m, a).s)
  {
    hide MachineInv, Inv, ListedSurvive, NewBaseListed, UndoOk, Undone, Adopted, Load;
    var s, t := m.s, Perform(m, a);
    Standing(m);
    SameFilesSurvive(s, s);
    if a.Undo? {
      UndoStep(s, m.pc.rdb);
    } else {
      AdoptStep(s);
    }
    Stands(t.s, t.pc);
  }

  lemma AdoptStep(s: State)
    requires Inv(s) && NewBaseListed(s)
    ensures s.disk.Some? && Inv(Adopted(s)) && ListedSurvive(s, Adopted(s))
  {
    AdoptKeeps(s);
    SameFilesSurvive(s, Adopted(s));
    hide Inv, ListedSurvive;
  }

  lemma OtherStep(m: Machine, a: Action)
    requires MachineInv(m) && Enabled(m, a)
    requires a.Feed? || a.Flush? || a.BeginCollect? || a.UnlinkNext? || a.PersistSame?
    ensures MachineInv(Perform(m, a)) && ListedSurvive(m.s, Perform(m, a).s)
  {
    hide MachineInv, Inv, ListedSurvive, Flushed, Dropped, PersistedSame, Load;
    var s, t := m.s, Perform(m, a);
    Standing(m);
    SameFilesSurvive(s, s);
    match a {
      case Feed(cmd) => FeedKeeps(s, cmd); SameFilesSurvive(s, Fed(s, cmd));
      case Flush(n) => FlushKeeps(s, n); FlushSurvives(s, n);
      case BeginCollect =>
      case UnlinkNext(ok) => DropStep(s, ok);
      case PersistSame(p) => PersistSameKeeps(s);
    }
    Stands(t.s, t.pc);
  }

  lemma BootStep(m: Machine, a: Action)
    requires MachineInv(m) && Enabled(m, a)
    requires a.CreateBase? || a.OpenFirst? || a.PersistFirst?
    ensures MachineInv(Perform(m, a)) && ListedSurvive(m.s, Perform(m, a).s)
  {
    hide Inv, Live;
    if a.PersistFirst? {
      PersistFirstKeeps(m);
    }
  }

  lemma ActionKeeps(m: Machine, a: Action)
    requires MachineInv(m) && Enabled(m, a)
    ensures MachineInv(Perform(m, a))
    ensures !BreaksDisk(m, a) ==> ListedSurvive(m.s, Perform(m, a).s)
  {
    hide MachineInv, Enabled, Perform, ListedSurvive, BreaksDisk;
    match a
    case CreateBase => BootStep(m, a);
    case OpenFirst => BootStep(m, a);
    case PersistFirst => BootStep(m, a);
    case Feed(_) => OtherStep(m, a);
    case Flush(_) => OtherStep(m, a);
    case BeginRewrite(_) => RewriteStep(m, a);
    case Open(_) => RewriteStep(m, a);
    case PersistIncr(_) => RewriteStep(m, a);
    case Switch => SwitchStep(m, a);
    case Fork(_) => SwitchStep(m, a);
    case ChildDone(_) => ExitStep(m, a);
    case Rename(_, _) => ExitStep(m, a);
    case PersistBase(_) => PersistBaseStep(m, a);
    case Undo(_) => UndoOrAdoptStep(m, a);
    case Adopt(_) => UndoOrAdoptStep(m, a);
    case BeginCollect => OtherStep(m, a);
    case UnlinkNext(_) => OtherStep(m, a);
    case PersistSame(_) => OtherStep(m, a);
    case Crash(_, _, _) => CrashStep(m, a);
  }

  // ---- runs ----

  /** The machines passed through one after the other, from the first start of a server on. */
  ghost predicate IsRun(ms: seq<Machine>, actions: seq<Action>) {
    && |ms| == |actions| + 1
    && (exists files: Files, rdb: bool :: ms[0] == Boot(files, rdb))
    && (forall i :: 0 <= i < |actions| ==> Enabled(ms[i], actions[i]) && ms[i + 1] == Perform(ms[i], actions[i]))
  }

  lemma {:induction false} RunKeeps(ms: seq<Machine>, actions: seq<Action>, i: nat)
    requires IsRun(ms, actions) && i < |ms|
    ensures MachineInv(ms[i])
    decreases i
  {
    hide Inv, Enabled, Perform;
    if i > 0 {
      hide MachineInv;
      RunKeeps(ms, actions, i - 1);
      ActionKeeps(ms[i - 1], actions[i - 1]);
    }
  }

  lemma MachineRecoversIff(m: Machine, torn: bool, lenient: bool)
    requires MachineInv(m)
    ensures CrashRecovers(m.s, torn, lenient) <==> Clean(m.s) && (torn && m.s.disk.Some? ==> lenient && FdLast(m.s))
  {
    hide MachineInv, Inv, PlaceOk, FdLast, Tolerated, Replay;
    if Booting(m.pc) {
      BootClean(m);
    } else {
      Standing(m);
      DiskThere(m.s);
      hide CrashRecovers, Clean;
      CrashRecoversIff(m.s, torn, lenient);
    }
  }

  lemma BootClean(m: Machine)
    requires MachineInv(m) && Booting(m.pc)
    ensures m.s.disk.None? && m.s.written == [] && Clean(m.s)
  {
  }

  lemma DiskThere(s: State)
    requires Inv(s)
    ensures s.disk.Some?
  {
  }

  /**
    At every moment of every run a crash, in the middle of a write or not, is followed by a
    start with exactly the commands written, if and only if the log is clean and a torn tail is
    in the last file listed and tolerated.
    */
  lemma EveryMomentRecoversIff(ms: seq<Machine>, actions: seq<Action>)
    requires IsRun(ms, actions)
    ensures forall i, torn, lenient :: 0 <= i < |ms| ==>
              (CrashRecovers(ms[i].s, torn, lenient) <==>
               Clean(ms[i].s) && (torn && ms[i].s.disk.Some? ==> lenient && FdLast(ms[i].s)))
  {
    hide MachineInv, IsRun, CrashRecovers, Clean, FdLast;
    forall i, torn, lenient | 0 <= i < |ms|
      ensures CrashRecovers(ms[i].s, torn, lenient) <==>
              Clean(ms[i].s) && (torn && ms[i].s.disk.Some? ==> lenient && FdLast(ms[i].s))
    {
      RunKeeps(ms, actions, i);
      MachineRecoversIff(ms[i], torn, lenient);
    }
  }

  /** In every run the files the disk lists only grow, until a listed base is unlinked. */
  lemma ListedFilesOnlyGrow(ms: seq<Machine>, actions: seq<Action>, i: nat)
    requires IsRun(ms, actions) && i < |actions| && !BreaksDisk(ms[i], actions[i])
    ensures ListedSurvive(ms[i].s, ms[i + 1].s)
  {
    hide MachineInv, Enabled, Perform, ListedSurvive, BreaksDisk;
    RunKeeps(ms, actions, i);
    ActionKeeps(ms[i], actions[i]);
  }

  // ---- runs without faults ----

  /**
    The forced flush before a rewrite gets everything out, no listed base is unlinked, no
    directory sync fails after a new INCR is listed, and the first start finds no old INCR.
    */
  predicate Faultless(m: Machine, a: Action) {
    && (a.BeginRewrite? ==> a.n == |m.s.buf|)
    && !BreaksDisk(m, a)
    && a != PersistIncr(DirSyncFailed)
    && (a.PersistFirst? ==> Content(m.s.files, IncrId(m.s.fd)) == [])
  }

  predicate Rewriting(pc: Pc) { pc.AtOpen? || pc.AtPersistIncr? || pc.AtSwitch? || pc.AtFork? }

  predicate NoFault(m: Machine) {
    && Pristine(m.s) && (Rewriting(m.pc) ==> m.s.buf == [])
    && (m.s.disk.Some? && !m.pc.AtSwitch? ==> FdLast(m.s))
  }

  lemma StaysPristine(m: Machine, a: Action)
    requires Enabled(m, a) && Faultless(m, a) && NoFault(m)
    ensures var t := Perform(m, a); Pristine(t.s) && (Rewriting(t.pc) ==> t.s.buf == [])
  {
    hide Load, Live, Grown, NewIncr, Rewritten, Reopened, FdLast;
  }

  lemma MemoryLast(s: State)
    requires Inv(s)
    ensures s.am.incr != [] && s.am.incr[|s.am.incr| - 1] == s.fd
  {
  }

  lemma StaysLast(m: Machine, a: Action)
    requires MachineInv(m) && Enabled(m, a) && Faultless(m, a) && NoFault(m)
    ensures var t := Perform(m, a); t.s.disk.Some? && !t.pc.AtSwitch? ==> FdLast(t.s)
  {
    hide MachineInv, Inv, Load, Live, Grown, PlaceOk, Pristine;
    if Booting(m.pc) {
      BootView(m);
    } else {
      Standing(m);
      MemoryLast(m.s);
      if a.Switch? {
        SwitchLast(m);
      }
    }
  }

  lemma BootView(m: Machine)
    requires MachineInv(m) && Booting(m.pc)
    ensures m.s.am.incr == [m.s.fd] && m.s.disk.None?
  {
  }

  lemma SwitchLast(m: Machine)
    requires PlaceOk(m.s, m.pc) && m.pc.AtSwitch?
    ensures FdLast(Switched(m.s))
  {
  }

  /** Without those faults every moment recovers, also from a crash in the middle of a write. */
  lemma {:induction false} FaultlessRunRecovers(ms: seq<Machine>, actions: seq<Action>, i: nat)
    requires IsRun(ms, actions) && i < |ms|
    requires forall j :: 0 <= j < |actions| ==> Faultless(ms[j], actions[j])
    ensures NoFault(ms[i])
    ensures forall torn, lenient :: (torn ==> Writing(ms[i].pc) && lenient) ==> CrashRecovers(ms[i].s, torn, lenient)
    decreases i
  {
    hide MachineInv, Enabled, Perform, Faultless, CrashRecovers, FdLast;
    if i > 0 {
      FaultlessRunRecovers(ms, actions, i - 1);
      RunKeeps(ms, actions, i - 1);
      assert Faultless(ms[i - 1], actions[i - 1]);
      hide NoFault;
      StaysNoFault(ms[i - 1], actions[i - 1]);
    }
    RunKeeps(ms, actions, i);
    NoFaultRecovers(ms[i]);
  }

  lemma StaysNoFault(m: Machine, a: Action)
    requires MachineInv(m) && Enabled(m, a) && Faultless(m, a) && NoFault(m)
    ensures NoFault(Perform(m, a))
  {
    hide MachineInv, Enabled, Perform, Faultless, Pristine, FdLast;
    StaysPristine(m, a);
    StaysLast(m, a);
  }

  lemma NoFaultRecovers(m: Machine)
    requires MachineInv(m) && NoFault(m)
    ensures forall torn, lenient :: (torn ==> Writing(m.pc) && lenient) ==> CrashRecovers(m.s, torn, lenient)
  {
    hide MachineInv, CrashRecovers, FdLast;
    forall torn, lenient | torn ==> Writing(m.pc) && lenient
      ensures CrashRecovers(m.s, torn, lenient)
    {
      MachineRecoversIff(m, torn, lenient);
    }
  }
}
