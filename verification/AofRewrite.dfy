/**
  The background rewrite of aof.c run by a server with its log on.  System calls
  succeed or fail as the caller's parameters say; `trace` records the state after
  every one of them, so it holds every moment at which the process can crash.
  */
module AofRewrite {
  import opened Wrappers
  import opened FileLog
  import opened AofDisk
  import opened AofRewriteSpec

  /** Each recorded state satisfies the invariant, and files the disk lists only grow. */
  ghost predicate TraceOk(trace: seq<State>) {
    && (forall i :: 0 <= i < |trace| ==> Inv(trace[i]))
    && (forall i :: 0 < i < |trace| ==> Survives(trace[i - 1], trace[i]))
  }

  ghost predicate AllPristine(trace: seq<State>) {
    forall i :: 0 <= i < |trace| ==> Pristine(trace[i])
  }

  /** Listed files survive a step, except that breaking the disk removes its base. */
  ghost predicate Survives(s: State, t: State) {
    ListedSurvive(s, t) || (!s.broken && t.broken)
  }

  lemma TraceGrows(trace: seq<State>, s: State)
    requires TraceOk(trace) && Inv(s) && (trace != [] ==> Survives(trace[|trace| - 1], s))
    ensures TraceOk(trace + [s])
    ensures AllPristine(trace) && Pristine(s) ==> AllPristine(trace + [s])
  {
    hide Inv, Survives, Pristine;
  }

  lemma TraceOfOne(s: State)
    requires Inv(s)
    ensures TraceOk([s]) && (Pristine(s) ==> AllPristine([s]))
  {
    hide Inv;
  }

  class Server {
    var files: Files
    var disk: Option<View>
    var am: View
    var fd: nat
    var buf: seq<Cmd>
    var dataset: seq<Cmd>
    var child: Option<seq<Cmd>>
    ghost var written: seq<Cmd>
    ghost var amMark: Mark
    ghost var diskMark: Mark
    ghost var childMark: Mark
    ghost var broken: bool
    ghost var trace: seq<State>
    /** No forced flush has fallen short and no listed base has been unlinked. */
    ghost var faultless: bool

    ghost function Now(): State
      reads this
    {
      State(files, disk, am, fd, buf, dataset, child, written, amMark, diskMark, childMark, broken)
    }

    /** The last recorded state has the present disk. */
    ghost predicate Valid()
      reads this
    {
      && Inv(Now()) && TraceOk(trace) && trace != []
      && trace[|trace| - 1].files == files && trace[|trace| - 1].disk == disk && trace[|trace| - 1].broken == broken
      && (faultless ==> Pristine(Now()) && AllPristine(trace))
    }

    /** First start on a directory without a manifest. */
    constructor (orphans: Files, rdb: bool)
      ensures Valid() && Now() == Fresh(orphans, rdb) && dataset == [] && written == []
      ensures faultless <==> Content(orphans, IncrId(1)) == []
    {
      hide Inv, TraceOk, AllPristine, Content;
      var base, incr := BaseId(1, rdb), IncrId(1);
      am := View(base, [1], [], 1, 1);
      files := orphans[base := []][incr := Content(orphans, incr)];
      disk := Some(View(base, [1], [], 1, 1));
      fd, buf, dataset, child := 1, [], [], None;
      written, amMark, diskMark := [], Mark(0, Content(orphans, incr)), Mark(0, Content(orphans, incr));
      childMark, broken := Mark(0, []), false;
      trace, faultless := [Fresh(orphans, rdb)], Content(orphans, incr) == [];
      new;
      FreshInv(orphans, rdb);
      TraceOfOne(Fresh(orphans, rdb));
    }

    /** Restart from any state an earlier process can have left behind, if its files load. */
    constructor Restart(image: State)
      requires Inv(image) && Replay(image.disk, image.files).Some?
      ensures Valid() && Now() == Restarted(image) && faultless
      ensures Clean(image) ==> dataset == image.written
    {
      var v := image.disk.value;
      files, disk, am, fd := image.files, image.disk, Reopened(v), Reopened(v).currIncr;
      buf, child, dataset := [], None, Replay(image.disk, image.files).value;
      written, broken := Replay(image.disk, image.files).value, false;
      amMark, diskMark, childMark := Mark(0, []), Mark(0, []), Mark(0, []);
      trace, faultless := [Restarted(image)], true;
      new;
      hide Inv, TraceOk, Replay, Clean, AllPristine;
      RestartKeeps(image);
      TraceOfOne(Restarted(image));
    }

    ghost method Record()
      requires Inv(Now()) && TraceOk(trace) && trace != []
      requires Survives(trace[|trace| - 1], Now())
      requires faultless ==> Pristine(Now()) && AllPristine(trace)
      modifies this`trace
      ensures Valid() && trace == old(trace) + [Now()]
    {
      hide Inv, TraceOk, Survives, AllPristine;
      TraceGrows(trace, Now());
      trace := trace + [Now()];
    }

    /** feedAppendOnlyFile */
    method Feed(cmd: Cmd)
      requires Valid()
      modifies this`buf, this`dataset
      ensures Valid()
      ensures dataset == old(dataset) + [cmd] && buf == old(buf) + [cmd]
    {
      hide Inv, TraceOk, AllPristine;
      FeedKeeps(Now(), cmd);
      dataset := dataset + [cmd];
      buf := buf + [cmd];
    }

    /** flushAppendOnlyFile: the first `n` buffered commands reach the file. */
    method Flush(n: nat)
      requires Valid() && n <= |buf|
      modifies this`files, this`buf, this`written, this`trace
      ensures Valid() && Now() == Flushed(old(Now()), n)
    {
      hide Inv, TraceOk, AllPristine;
      FlushKeeps(Now(), n);
      FlushSurvives(Now(), n);
      files := Grown(files, IncrId(fd), buf[..n]);
      written := written + buf[..n];
      buf := buf[n..];
      Record();
    }

    // ---- single system calls and assignments ----

    method TruncateNext()
      requires Valid() && child.None?
      modifies this`files, this`trace
      ensures Valid() && Now() == Truncated(old(Now()))
    {
      hide Inv, TraceOk, AllPristine;
      TruncateKeeps(Now());
      files := files[IncrId(am.currIncr + 1) := []];
      Record();
    }

    method PersistNext()
      requires Valid() && child.None? && NextEmpty(Now())
      modifies this`disk, this`diskMark, this`broken, this`trace
      ensures Valid() && Now() == PersistedIncr(old(Now()))
    {
      hide Inv, TraceOk, AllPristine, NextEmpty;
      PersistIncrKeeps(Now());
      disk, diskMark, broken := Some(NewIncr(am)), amMark, false;
      Record();
    }

    method Switch()
      requires Valid() && ReadyToSwitch(Now())
      modifies this`am, this`fd
      ensures Valid() && Now() == Switched(old(Now()))
    {
      hide Inv, TraceOk, AllPristine, ReadyToSwitch;
      SwitchKeeps(Now());
      fd, am := am.currIncr + 1, NewIncr(am);
    }

    method Fork()
      requires Valid() && ReadyToFork(Now()) && (faultless ==> buf == [])
      modifies this`child, this`childMark
      ensures Valid() && Now() == Forked(old(Now()))
    {
      hide Inv, TraceOk, AllPristine, ReadyToFork;
      ForkKeeps(Now());
      child, childMark := Some(dataset), Mark(|written|, buf);
    }

    method RenameBase(rdb: bool, snapshot: seq<Cmd>)
      requires Valid() && ChildExited(Now(), snapshot)
      modifies this`files, this`trace
      ensures Valid() && Now() == Renamed(old(Now()), rdb, snapshot)
    {
      hide Inv, TraceOk, AllPristine, ChildExited, BaseThere;
      RenameKeeps(Now(), rdb, snapshot);
      files := files[BaseId(am.currBase + 1, rdb) := snapshot];
      Record();
    }

    method PersistBase(rdb: bool, ghost snapshot: seq<Cmd>)
      requires Valid() && ChildExited(Now(), snapshot) && BaseThere(Now(), rdb, snapshot)
      modifies this`disk, this`diskMark, this`trace
      ensures old(am).incr != [] && Valid() && Now() == PersistedBase(old(Now()), rdb)
    {
      hide Inv, TraceOk, AllPristine, ChildExited, BaseThere, Rewritten;
      PersistBaseKeeps(Now(), rdb, snapshot);
      disk, diskMark := Some(Rewritten(am, rdb)), childMark;
      Record();
    }

    method Unlink(id: Id)
      requires Valid() && id !in Live(am) && disk.Some? && id !in Live(disk.value)
      modifies this`files, this`trace
      ensures Valid() && Now() == old(Now()).(files := old(files) - {id})
    {
      hide Inv, TraceOk, AllPristine, Live;
      UnlinkKeeps(Now(), id);
      files := files - {id};
      Record();
    }

    /** The unlink of the new base after its manifest has been renamed into place. */
    method UnlinkListedBase()
      requires Valid() && NewBaseListed(Now()) && !faultless
      modifies this`files, this`broken, this`trace
      ensures Valid() && Now() == Broken(old(Now()))
    {
      hide Inv, TraceOk, AllPristine;
      assert disk.Some?;
      hide NewBaseListed;
      BreakKeeps(Now());
      files, broken := files - {disk.value.base}, true;
      Record();
    }

    method Adopt()
      requires Valid() && NewBaseListed(Now())
      modifies this`am, this`amMark
      ensures Valid() && Now() == Adopted(old(Now()))
    {
      hide Inv, TraceOk, AllPristine;
      assert disk.Some?;
      hide NewBaseListed;
      AdoptKeeps(Now());
      am, amMark := disk.value, diskMark;
    }

    method Forget()
      requires Valid()
      modifies this`am
      ensures Valid() && Now() == Forgotten(old(Now()))
    {
      hide Inv, TraceOk, AllPristine;
      ForgetKeeps(Now());
      am := am.(hist := []);
    }

    method PersistSame()
      requires Valid()
      modifies this`disk, this`diskMark, this`broken, this`trace
      ensures Valid() && Now() == PersistedSame(old(Now()))
    {
      hide Inv, TraceOk, AllPristine;
      PersistSameKeeps(Now());
      disk, diskMark, broken := Some(am), amMark, false;
      Record();
    }

    // ---- the calls ----

    /** openNewIncrAofForAppend */
    method OpenNewIncr(openOk: bool, persist: Persist) returns (ok: bool)
      requires Valid() && child.None?
      modifies this`files, this`disk, this`am, this`fd, this`amMark, this`diskMark, this`broken, this`trace
      ensures Valid() && Now() == Opened(old(Now()), openOk, persist)
      ensures ok <==> openOk && persist.PersistOk?
      ensures ok ==> ReadyToFork(Now())
    {
      ghost var s0 := Now();
      assert Inv(s0);
      hide Valid, Inv, Truncated, PersistedIncr, Switched, NextEmpty, ReadyToSwitch, ReadyToFork;
      if !openOk {
        return false;
      }
      TruncateKeeps(s0);
      TruncateNext();
      if persist.NotRenamed? {
        return false;
      }
      PersistIncrKeeps(Now());
      PersistNext();
      if persist.DirSyncFailed? {
        return false;
      }
      SwitchKeeps(Now());
      Switch();
      return true;
    }

    /** rewriteAppendOnlyFileBackground */
    method StartRewrite(env: StartEnv) returns (ok: bool)
      requires Valid()
      modifies this
      ensures Valid() && Now() == Started(old(Now()), env)
      ensures ok <==> old(child).None? && env.dirOk && env.openOk && env.persist.PersistOk? && env.forkOk
      ensures faultless == (old(faultless) && env.flush.All?)
    {
      hide Inv, TraceOk, AllPristine, Opened, Forked, ReadyToFork, Grown;
      faultless := faultless && env.flush.All?;
      hide Valid;
      if child.Some? || !env.dirOk {
        return false;
      }
      Flush(FlushCount(|buf|, env.flush));
      ok := OpenNewIncr(env.openOk, env.persist);
      if !ok || !env.forkOk {
        return false;
      }
      Fork();
    }

    /** aofDelHistoryFiles */
    method DeleteHistory(env: GcEnv)
      requires Valid()
      modifies this`files, this`disk, this`am, this`diskMark, this`broken, this`trace
      ensures Valid() && Now() == Collected(old(Now()), env)
    {
      if !env.autoGc || am.hist == [] {
        return;
      }
      UnlinkHistory(env.removed);
      hide Valid, Forgotten, PersistedSame, HistorySet;
      Forget();
      if !env.persist.NotRenamed? {
        PersistSame();
      }
    }

    /** The loop of aofDelHistoryFiles. */
    method UnlinkHistory(removed: set<Id>)
      requires Valid()
      modifies this`files, this`trace
      ensures Valid() && Now() == old(Now()).(files := old(files) - (HistorySet(old(Now())) * removed))
    {
      ghost var start := Now();
      hide Inv, TraceOk, AllPristine, Live;
      for i := 0 to |am.hist|
        invariant Valid()
        invariant files == start.files - ((set id | id in am.hist[..i]) * removed)
      {
        var id := am.hist[i];
        assert am.hist[..i + 1] == am.hist[..i] + [id];
        if id in removed {
          HistoryIsNotLive(Now(), id);
          Unlink(id);
        }
      }
      assert am.hist[..|am.hist|] == am.hist;
    }

    /** backgroundRewriteDoneHandler */
    method RewriteDone(env: DoneEnv)
      requires Valid() && child.Some?
      modifies this
      ensures old(am).incr != [] && Valid() && Now() == Finished(old(Now()), env)
      ensures faultless == (old(faultless) && !(env.persist.DirSyncFailed? && env.unlinkOk))
    {
      hide Inv, TraceOk, AllPristine, ChildExited;
      var snapshot := child.value;
      ExitKeeps(Now());
      child := None;
      faultless := faultless && !(env.persist.DirSyncFailed? && env.unlinkOk);
      if !env.exitOk || !env.renameOk {
        return;
      }
      Install(env, snapshot);
    }

    /** Puts the child's file in place as the new base. */
    method Install(env: DoneEnv, snapshot: seq<Cmd>)
      requires Valid() && ChildExited(Now(), snapshot) && am.incr != []
      requires faultless ==> !(env.persist.DirSyncFailed? && env.unlinkOk)
      modifies this
      ensures Valid() && Now() == Installed(old(Now()), env, snapshot) && faultless == old(faultless)
    {
      hide Inv, TraceOk, AllPristine, ChildExited;
      hide Renamed, PersistedBase, Broken, Adopted, Collected, BaseThere, NewBaseListed, Live;
      RenameReady(Now(), env.rdb, snapshot);
      RenameBase(env.rdb, snapshot);
      if env.persist.NotRenamed? {
        if env.unlinkOk {
          Unlink(BaseId(am.currBase + 1, env.rdb));
        }
        return;
      }
      PersistBaseListed(Now(), env.rdb, snapshot);
      PersistBase(env.rdb, snapshot);
      if env.persist.DirSyncFailed? {
        if env.unlinkOk {
          UnlinkListedBase();
        }
        return;
      }
      Adopt();
      DeleteHistory(env.gc);
    }
  }
}
