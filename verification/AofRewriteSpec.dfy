/**
  The state of a server with its append-only log on, the invariant that ties its
  manifest in memory and its manifest on disk to the commands written so far,
  and the single steps that keep it.
  */
module AofRewriteSpec {
  import opened Wrappers
  import opened FileLog
  import opened AofDisk

  /** Where in the written commands a manifest's base was taken, and what it holds beyond them. */
  datatype Mark = Mark(p: nat, ahead: seq<Cmd>)

  datatype State = State(
    files: Files, disk: Option<View>,                  // the directory and its manifest file
    am: View, fd: nat, buf: seq<Cmd>, dataset: seq<Cmd>, // the server's memory
    child: Option<seq<Cmd>>,                           // the snapshot a running child writes
    written: seq<Cmd>, amMark: Mark, diskMark: Mark, childMark: Mark, broken: bool)

  predicate SameFiles(v: View, w: View) { v.base == w.base && v.incr == w.incr }

  ghost predicate Follows(s: State, v: View, mark: Mark) {
    Tracks(v, s.files, s.fd, s.written, mark.p, mark.ahead)
  }

  /** The child will write the commands up to the fork, and the current INCR holds those after it. */
  ghost predicate ChildOk(s: State, snapshot: seq<Cmd>) {
    && s.childMark.p <= |s.written|
    && snapshot == s.written[..s.childMark.p] + s.childMark.ahead
    && Content(s.files, IncrId(s.fd)) == s.written[s.childMark.p..]
  }

  ghost predicate Inv(s: State) {
    && s.dataset == s.written + s.buf
    && Follows(s, s.am, s.amMark)
    && s.am.incr[|s.am.incr| - 1] == s.fd
    && s.am.base.n == s.am.currBase
    && s.disk.Some? && Good(s.disk.value)
    && s.disk.value.base.n >= s.am.base.n && s.disk.value.incr[0] >= s.am.incr[0]
    && (if s.broken then s.disk.value.base !in s.files && s.disk.value.incr == [s.fd] && s.child.None?
        else Follows(s, s.disk.value, s.diskMark))
    && (s.child.Some? ==> SameFiles(s.disk.value, s.am) && ChildOk(s, s.child.value))
  }

  /** A restart at this moment gives exactly the commands written. */
  predicate Recovers(s: State) { Replay(s.disk, s.files) == Some(s.written) }

  predicate Clean(s: State) { !s.broken && s.diskMark.ahead == [] }

  /** Nothing has gone wrong that a later rewrite could expose. */
  predicate Pristine(s: State) {
    !s.broken && s.amMark.ahead == [] && s.diskMark.ahead == [] && s.childMark.ahead == []
  }

  /** The disk is recoverable exactly when no failed directory sync broke it and no base holds unwritten commands. */
  lemma RecoversIffClean(s: State)
    requires Inv(s)
    ensures Recovers(s) <==> Clean(s)
  {
    hide Good, Tracks;
    if s.broken {
      assert Live(s.disk.value)[0] == s.disk.value.base;
    } else {
      TracksReplay(s.disk.value, s.files, s.fd, s.written, s.diskMark.p, s.diskMark.ahead);
    }
  }

  /** Files the disk lists are never truncated or removed, only appended to. */
  predicate ListedSurvive(s: State, t: State) {
    s.disk.Some? ==> forall id :: id in Live(s.disk.value) && id in s.files ==> id in t.files && s.files[id] <= t.files[id]
  }

  // ---- writing ----

  function Fed(s: State, cmd: Cmd): State { s.(buf := s.buf + [cmd], dataset := s.dataset + [cmd]) }

  lemma FeedKeeps(s: State, cmd: Cmd)
    requires Inv(s)
    ensures Inv(Fed(s, cmd))
  {
    hide Tracks, Good, Live, Content;
    assert s.written + s.buf + [cmd] == s.written + (s.buf + [cmd]);
  }

  function Flushed(s: State, n: nat): State
    requires n <= |s.buf|
  {
    s.(files := Grown(s.files, IncrId(s.fd), s.buf[..n]), buf := s.buf[n..], written := s.written + s.buf[..n])
  }

  lemma FlushKeeps(s: State, n: nat)
    requires Inv(s) && n <= |s.buf|
    ensures Inv(Flushed(s, n))
  {
    hide Good, Tracks, Live, Grown, Content, ChildOk;
    FdIsLive(s);
    var w, t := s.buf[..n], Flushed(s, n);
    TracksWrite(s.am, s.files, s.fd, s.written, s.amMark.p, s.amMark.ahead, w);
    if !s.broken {
      TracksWrite(s.disk.value, s.files, s.fd, s.written, s.diskMark.p, s.diskMark.ahead, w);
    }
    assert t.dataset == t.written + t.buf;
    if s.child.Some? {
      FlushChild(s, n, s.child.value);
    }
    GrownKeys(s.files, IncrId(s.fd), w);
  }

  lemma GrownKeys(files: Files, id: Id, more: seq<Cmd>)
    requires id in files
    ensures Grown(files, id, more).Keys == files.Keys
  {
  }

  lemma FlushSurvives(s: State, n: nat)
    requires n <= |s.buf|
    ensures ListedSurvive(s, Flushed(s, n))
  {
    hide Live;
  }

  lemma FlushChild(s: State, n: nat, snapshot: seq<Cmd>)
    requires n <= |s.buf| && ChildOk(s, snapshot)
    ensures ChildOk(Flushed(s, n), snapshot)
  {
    var w, t := s.buf[..n], Flushed(s, n);
    var p := s.childMark.p;
    assert t.written[..p] == s.written[..p] && t.written[p..] == s.written[p..] + w;
  }

  lemma FdIsLive(s: State)
    requires Inv(s)
    ensures IncrId(s.fd) in s.files && IncrId(s.fd) in Live(s.am)
  {
    var last := |s.am.incr| - 1;
    assert Live(s.am)[last + 1] == IncrId(s.am.incr[last]);
  }

  // ---- opening a new INCR ----

  function NextIncr(s: State): Id { IncrId(s.am.currIncr + 1) }

  predicate NextEmpty(s: State) { NextIncr(s) in s.files && s.files[NextIncr(s)] == [] }

  function Truncated(s: State): State { s.(files := s.files[NextIncr(s) := []]) }

  lemma IncrInLive(v: View, n: nat)
    requires IncrId(n) in Live(v) && v.base.BaseId?
    ensures n in v.incr
  {
    var i :| 0 <= i < |Live(v)| && Live(v)[i] == IncrId(n);
    assert v.incr[i - 1] == n;
  }

  /** The next INCR is not live in memory; if the disk lists it, it is there and empty. */
  lemma NextIncrIsFree(s: State)
    requires Inv(s)
    ensures NextIncr(s) !in Live(s.am)
    ensures NextIncr(s) in Live(s.disk.value) ==> NextIncr(s) in s.files && s.files[NextIncr(s)] == []
  {
    hide Live;
    var n := s.am.currIncr + 1;
    NotYetListed(s.am);
    if NextIncr(s) in Live(s.disk.value) {
      IncrInLive(s.disk.value, n);
      if !s.broken {
        LaterIsEmpty(s.disk.value, s, s.diskMark, n);
      }
    }
  }

  lemma NotYetListed(v: View)
    requires Good(v)
    ensures IncrId(v.currIncr + 1) !in Live(v)
  {
    var n := v.currIncr + 1;
    if IncrId(n) in Live(v) {
      IncrInLive(v, n);
    }
  }

  /** INCR files numbered above the current one are present and empty. */
  lemma LaterIsEmpty(v: View, s: State, mark: Mark, n: nat)
    requires Follows(s, v, mark) && IncrId(n) in Live(v) && s.fd < n
    ensures IncrId(n) in s.files && s.files[IncrId(n)] == []
  {
    hide Concat;
    var live := Live(v);
    var k :| AtEnd(s.files, live, IncrId(s.fd), k);
    var i :| 0 <= i < |live| && live[i] == IncrId(n);
    assert live[k] == IncrId(v.incr[k - 1]) && live[i] == IncrId(v.incr[i - 1]);
    assert live[i] in s.files;
  }

  lemma LivePresent(v: View, s: State)
    requires Present(s.files, Live(v))
    ensures forall id :: id in Live(v) ==> id in s.files
  {
  }

  /** An empty new INCR adds nothing to what a view replays. */
  lemma NewIncrReplays(v: View, files: Files)
    requires Good(v) && Present(files, Live(v))
    requires IncrId(v.currIncr + 1) in files && files[IncrId(v.currIncr + 1)] == []
    ensures Live(NewIncr(v)) == Live(v) + [IncrId(v.currIncr + 1)] && Present(files, Live(NewIncr(v)))
    ensures Concat(files, Live(NewIncr(v))) == Concat(files, Live(v))
  {
    var w, id := NewIncr(v), IncrId(v.currIncr + 1);
    var before, after := Live(v), Live(w);
    assert after == before + [id];
    hide Good;
    ConcatAppend(files, before, [id]);
    assert Concat(files, [id]) == [];
  }

  /** Listing an empty new INCR keeps a view tracking the current one. */
  lemma TracksListed(v: View, files: Files, fd: nat, written: seq<Cmd>, p: nat, ahead: seq<Cmd>)
    requires Tracks(v, files, fd, written, p, ahead)
    requires IncrId(v.currIncr + 1) in files && files[IncrId(v.currIncr + 1)] == []
    ensures Tracks(NewIncr(v), files, fd, written, p, ahead)
  {
    NewIncrGood(v);
    NewIncrReplays(v, files);
    hide Good, Concat, Live;
    var k :| AtEnd(files, Live(v), IncrId(fd), k);
    assert AtEnd(files, Live(NewIncr(v)), IncrId(fd), k);
  }

  /** Writing can then go on in the new INCR. */
  lemma TracksSwitched(v: View, files: Files, fd: nat, written: seq<Cmd>, p: nat, ahead: seq<Cmd>)
    requires Tracks(v, files, fd, written, p, ahead)
    requires IncrId(v.currIncr + 1) in files && files[IncrId(v.currIncr + 1)] == []
    ensures Tracks(NewIncr(v), files, v.currIncr + 1, written, p, ahead)
  {
    NewIncrGood(v);
    NewIncrReplays(v, files);
    hide Good, Concat, Live;
    assert AtEnd(files, Live(NewIncr(v)), IncrId(v.currIncr + 1), |Live(v)|);
  }

  function PersistedIncr(s: State): State {
    s.(disk := Some(NewIncr(s.am)), diskMark := s.amMark, broken := false)
  }

  lemma PersistIncrKeeps(s: State)
    requires Inv(s) && s.child.None? && NextEmpty(s)
    ensures Inv(PersistedIncr(s)) && ListedSurvive(s, PersistedIncr(s))
    ensures ReadyToSwitch(PersistedIncr(s))
  {
    TracksListed(s.am, s.files, s.fd, s.written, s.amMark.p, s.amMark.ahead);
    NewIncrGood(s.am);
    hide Tracks;
  }

  function Switched(s: State): State {
    s.(am := NewIncr(s.am), fd := s.am.currIncr + 1)
  }

  predicate ReadyToSwitch(s: State) {
    s.child.None? && NextEmpty(s) && s.disk == Some(NewIncr(s.am)) && s.diskMark == s.amMark && !s.broken
  }

  lemma SwitchKeeps(s: State)
    requires Inv(s) && ReadyToSwitch(s)
    ensures Inv(Switched(s)) && ReadyToFork(Switched(s))
  {
    TracksSwitched(s.am, s.files, s.fd, s.written, s.amMark.p, s.amMark.ahead);
    NewIncrGood(s.am);
    hide Tracks;
  }

  // ---- the child ----

  function Forked(s: State): State {
    s.(child := Some(s.dataset), childMark := Mark(|s.written|, s.buf))
  }

  predicate ReadyToFork(s: State) {
    && s.child.None? && !s.broken && s.disk.Some? && SameFiles(s.disk.value, s.am)
    && Content(s.files, IncrId(s.fd)) == []
  }

  lemma ForkKeeps(s: State)
    requires Inv(s) && ReadyToFork(s)
    ensures Inv(Forked(s))
  {
    hide Good, Tracks;
    assert s.written[..|s.written|] == s.written && s.written[|s.written|..] == [];
  }

  // ---- finishing a rewrite ----

  function NextBase(s: State, rdb: bool): Id { BaseId(s.am.currBase + 1, rdb) }

  function Renamed(s: State, rdb: bool, snapshot: seq<Cmd>): State {
    s.(files := s.files[NextBase(s, rdb) := snapshot])
  }

  lemma NextBaseIsFree(s: State, rdb: bool)
    requires Inv(s) && SameFiles(s.disk.value, s.am)
    ensures NextBase(s, rdb) !in Live(s.am) && NextBase(s, rdb) !in Live(s.disk.value)
    ensures NextBase(s, rdb) != IncrId(s.fd)
  {
  }

  /** The files of the view are the same in both. */
  ghost predicate Agree(v: View, files: Files, files': Files) {
    forall id :: id in Live(v) ==> (id in files' <==> id in files) && Content(files', id) == Content(files, id)
  }

  lemma AgreeFollows(v: View, s: State, files': Files, mark: Mark)
    requires Follows(s, v, mark) && Agree(v, s.files, files')
    ensures Follows(s.(files := files'), v, mark)
  {
    LivePresent(v, s);
    hide Live, Good, Concat, Content;
    TracksOther(v, s.files, files', s.fd, s.written, mark.p, mark.ahead);
  }

  lemma AgreeChild(s: State, files': Files, snapshot: seq<Cmd>)
    requires Inv(s) && Agree(s.am, s.files, files') && ChildOk(s, snapshot)
    ensures ChildOk(s.(files := files'), snapshot)
  {
    FdIsLive(s);
  }

  lemma AgreeBase(v: View, files: Files, files': Files)
    requires Agree(v, files, files')
    ensures v.base in files' <==> v.base in files
  {
    assert Live(v)[0] == v.base;
  }

  lemma AgreeSurvive(s: State, files': Files)
    requires s.disk.Some? && Agree(s.disk.value, s.files, files')
    ensures ListedSurvive(s, s.(files := files'))
  {
    hide Live;
  }

  /** Files that neither manifest lists may be replaced or removed. */
  lemma OthersMayChange(s: State, files': Files)
    requires Inv(s) && Agree(s.am, s.files, files') && Agree(s.disk.value, s.files, files')
    ensures Inv(s.(files := files')) && ListedSurvive(s, s.(files := files'))
  {
    hide Good, Follows, ChildOk, Agree, ListedSurvive;
    AgreeFollows(s.am, s, files', s.amMark);
    if !s.broken {
      AgreeFollows(s.disk.value, s, files', s.diskMark);
    }
    if s.child.Some? {
      AgreeChild(s, files', s.child.value);
    }
    AgreeBase(s.disk.value, s.files, files');
    AgreeSurvive(s, files');
  }

  lemma TruncateAgrees(s: State)
    requires Inv(s)
    ensures s.disk.Some? && Agree(s.am, s.files, Truncated(s).files) && Agree(s.disk.value, s.files, Truncated(s).files)
  {
    assert s.disk.Some?;
    hide Inv, Live;
    NextIncrIsFree(s);
    OneReplaced(s.files, NextIncr(s), []);
  }

  lemma TruncateKeeps(s: State)
    requires Inv(s) && s.child.None?
    ensures Inv(Truncated(s)) && ListedSurvive(s, Truncated(s))
    ensures NextEmpty(Truncated(s)) && Truncated(s).child.None?
  {
    hide Inv, ListedSurvive, Live, Agree;
    TruncateAgrees(s);
    OthersMayChange(s, Truncated(s).files);
  }

  /** The child has exited with `snapshot` in its file, and nothing else has changed. */
  ghost predicate ChildExited(s: State, snapshot: seq<Cmd>) {
    s.child.None? && !s.broken && s.disk.Some? && SameFiles(s.disk.value, s.am) && ChildOk(s, snapshot)
  }

  lemma ExitKeeps(s: State)
    requires Inv(s) && s.child.Some?
    ensures Inv(s.(child := None)) && ChildExited(s.(child := None), s.child.value) && s.am.incr != []
  {
    assert Good(s.am);
    hide Tracks;
  }

  lemma RenameKeeps(s: State, rdb: bool, snapshot: seq<Cmd>)
    requires Inv(s) && ChildExited(s, snapshot)
    ensures Inv(Renamed(s, rdb, snapshot)) && ListedSurvive(s, Renamed(s, rdb, snapshot))
  {
    NextBaseIsFree(s, rdb);
    OneReplaced(s.files, NextBase(s, rdb), snapshot);
    hide Live, Inv, ListedSurvive, ChildOk, Content;
    assert Agree(s.am, s.files, Renamed(s, rdb, snapshot).files);
    assert Agree(s.disk.value, s.files, Renamed(s, rdb, snapshot).files);
    hide Agree;
    OthersMayChange(s, Renamed(s, rdb, snapshot).files);
  }

  lemma RenameReady(s: State, rdb: bool, snapshot: seq<Cmd>)
    requires Inv(s) && ChildExited(s, snapshot)
    ensures var t := Renamed(s, rdb, snapshot);
            ChildExited(t, snapshot) && BaseThere(t, rdb, snapshot) &&
            NextBase(t, rdb) !in Live(t.am) && t.disk.Some? && NextBase(t, rdb) !in Live(t.disk.value)
  {
    hide Live, Inv, ChildOk;
    NextBaseIsFree(s, rdb);
    RenameChild(s, rdb, snapshot);
  }

  lemma RenameChild(s: State, rdb: bool, snapshot: seq<Cmd>)
    requires ChildOk(s, snapshot)
    ensures ChildOk(Renamed(s, rdb, snapshot), snapshot)
  {
  }

  predicate BaseThere(s: State, rdb: bool, snapshot: seq<Cmd>) {
    NextBase(s, rdb) in s.files && s.files[NextBase(s, rdb)] == snapshot
  }

  function PersistedBase(s: State, rdb: bool): State
    requires s.am.incr != []
  {
    s.(disk := Some(Rewritten(s.am, rdb)), diskMark := s.childMark)
  }

  /** The new base and the current INCR replay to the commands up to the fork and those written since. */
  lemma TracksRewritten(s: State, rdb: bool, snapshot: seq<Cmd>)
    requires Inv(s) && ChildOk(s, snapshot) && BaseThere(s, rdb, snapshot)
    ensures Tracks(Rewritten(s.am, rdb), s.files, s.fd, s.written, s.childMark.p, s.childMark.ahead)
  {
    RewrittenGood(s.am, rdb);
    FdIsLive(s);
    RewrittenLive(s, rdb);
    var base, cur := NextBase(s, rdb), IncrId(s.fd);
    ConcatTwo(s.files, base, cur);
    hide Good, Tracks, Live, Rewritten, Concat;
    assert AtEnd(s.files, [base, cur], cur, 1);
    TracksFrom(Rewritten(s.am, rdb), s, s.childMark, 1);
  }

  lemma RewrittenLive(s: State, rdb: bool)
    requires Inv(s)
    ensures Live(Rewritten(s.am, rdb)) == [NextBase(s, rdb), IncrId(s.fd)]
  {
  }

  lemma ConcatTwo(files: Files, a: Id, b: Id)
    ensures Concat(files, [a, b]) == Content(files, a) + Content(files, b)
  {
    hide Content;
    assert [a, b][1..] == [b] && [b][1..] == [];
    assert Concat(files, [b]) == Content(files, b);
  }

  lemma TracksFrom(v: View, s: State, mark: Mark, k: nat)
    requires Good(v) && Present(s.files, Live(v)) && AtEnd(s.files, Live(v), IncrId(s.fd), k)
    requires mark.p <= |s.written| && Concat(s.files, Live(v)) == s.written[..mark.p] + mark.ahead + s.written[mark.p..]
    ensures Tracks(v, s.files, s.fd, s.written, mark.p, mark.ahead)
  {
  }

  lemma PersistBaseKeeps(s: State, rdb: bool, snapshot: seq<Cmd>)
    requires Inv(s) && ChildExited(s, snapshot) && BaseThere(s, rdb, snapshot)
    ensures s.am.incr != [] && Inv(PersistedBase(s, rdb)) && ListedSurvive(s, PersistedBase(s, rdb))
  {
    NewBaseShape(s, rdb);
    hide Follows, Good, Rewritten, ListedSurvive, BaseThere;
    var t := PersistedBase(s, rdb);
    assert Follows(t, Rewritten(s.am, rdb), s.childMark) by {
      TracksRewritten(s, rdb, snapshot);
      FollowsHere(Rewritten(s.am, rdb), t, s.childMark);
    }
    hide ChildOk;
    FollowsSame(s, t, s.am, s.amMark);
    SameFilesSurvive(s, t);
  }

  lemma PersistBaseListed(s: State, rdb: bool, snapshot: seq<Cmd>)
    requires Inv(s) && ChildExited(s, snapshot)
    ensures s.am.incr != [] && NewBaseListed(PersistedBase(s, rdb))
  {
    NewBaseShape(s, rdb);
    hide Inv, Rewritten;
  }

  lemma NewBaseShape(s: State, rdb: bool)
    requires Inv(s)
    ensures s.am.incr != []
    ensures var w := Rewritten(s.am, rdb);
            Good(w) && w.base == NextBase(s, rdb) && w.currBase == w.base.n > s.am.base.n && w.incr == [s.fd] && s.fd >= s.am.incr[0]
  {
    assert Good(s.am);
    RewrittenGood(s.am, rdb);
    RewrittenShape(s.am, rdb);
  }

  lemma FollowsHere(v: View, s: State, mark: Mark)
    requires Tracks(v, s.files, s.fd, s.written, mark.p, mark.ahead)
    ensures Follows(s, v, mark)
  {
  }

  /** Following depends on the files, the current INCR and the written commands only. */
  lemma FollowsSame(s: State, t: State, v: View, mark: Mark)
    requires Follows(s, v, mark) && t.files == s.files && t.fd == s.fd && t.written == s.written
    ensures Follows(t, v, mark)
  {
    hide Tracks;
  }

  lemma SameFilesSurvive(s: State, t: State)
    requires t.files == s.files
    ensures ListedSurvive(s, t)
  {
    hide Live;
  }

  lemma RewrittenShape(v: View, rdb: bool)
    requires Good(v)
    ensures var w := Rewritten(v, rdb);
            w.base == BaseId(v.currBase + 1, rdb) && w.currBase == w.base.n > v.base.n &&
            w.incr == [v.incr[|v.incr| - 1]] && w.incr[0] >= v.incr[0]
  {
  }

  /** The disk lists the new base and the current INCR only. */
  predicate NewBaseListed(s: State) {
    && s.child.None? && !s.broken && s.disk.Some?
    && s.disk.value.base.n > s.am.base.n && s.disk.value.incr == [s.fd] && s.disk.value.base.n == s.disk.value.currBase
  }

  /** The failure path after the rename of the manifest: the base the disk lists is removed. */
  function Broken(s: State): State
    requires s.disk.Some?
  {
    s.(files := s.files - {s.disk.value.base}, broken := true)
  }

  lemma BreakKeeps(s: State)
    requires Inv(s) && NewBaseListed(s)
    ensures Inv(Broken(s)) && Broken(s).broken && !s.broken
  {
    var t := Broken(s);
    LivePresent(s.am, s);
    assert s.disk.value.base !in Live(s.am);
    hide Good, Tracks, Live;
    TracksOther(s.am, s.files, t.files, s.fd, s.written, s.amMark.p, s.amMark.ahead);
  }

  function Adopted(s: State): State
    requires s.disk.Some?
  {
    s.(am := s.disk.value, amMark := s.diskMark)
  }

  lemma AdoptKeeps(s: State)
    requires Inv(s) && NewBaseListed(s)
    ensures Inv(Adopted(s))
  {
    hide Tracks;
  }

  // ---- deleting history ----

  lemma HistoryIsNotLive(s: State, id: Id)
    requires Inv(s) && id in s.am.hist
    ensures s.disk.Some? && id !in Live(s.am) && id !in Live(s.disk.value)
  {
    OlderIsNotLive(s.am, id, s.am.base.n, s.am.incr[0]);
    OlderIsNotLive(s.disk.value, id, s.am.base.n, s.am.incr[0]);
  }

  lemma OlderIsNotLive(v: View, id: Id, base: nat, incr: nat)
    requires Good(v) && Older(id, base, incr) && base <= v.base.n && incr <= v.incr[0]
    ensures id !in Live(v)
  {
  }

  lemma UnlinkKeeps(s: State, id: Id)
    requires Inv(s) && id !in Live(s.am) && id !in Live(s.disk.value)
    ensures Inv(s.(files := s.files - {id})) && ListedSurvive(s, s.(files := s.files - {id}))
  {
    hide Good, Tracks, Live, Inv, ListedSurvive;
    OthersMayChange(s, s.files - {id});
  }

  function Forgotten(s: State): State { s.(am := s.am.(hist := [])) }

  lemma ForgetKeeps(s: State)
    requires Inv(s)
    ensures Inv(Forgotten(s))
  {
    ForgetSome(s, |s.am.hist|);
    assert s.am.hist[|s.am.hist|..] == [];
    hide Inv;
  }

  /** The history entries in memory may be dropped from the front. */
  lemma ForgetSome(s: State, k: nat)
    requires Inv(s) && k <= |s.am.hist|
    ensures Inv(s.(am := s.am.(hist := s.am.hist[k..])))
  {
    var v, w := s.am, s.am.(hist := s.am.hist[k..]);
    assert Live(w) == Live(v);
    assert Tracks(w, s.files, s.fd, s.written, s.amMark.p, s.amMark.ahead);
    hide Tracks;
  }

  function PersistedSame(s: State): State {
    s.(disk := Some(s.am), diskMark := s.amMark, broken := false)
  }

  lemma PersistSameKeeps(s: State)
    requires Inv(s)
    ensures Inv(PersistedSame(s)) && ListedSurvive(s, PersistedSame(s))
  {
    hide Concat, Live;
  }

  // ---- starting ----

  /** A server that reopens the log of an earlier process, stopped at state `s`. */
  function Restarted(s: State): State
    requires s.disk.Some? && s.disk.value.incr != [] && Replay(s.disk, s.files).Some?
  {
    var loaded := Replay(s.disk, s.files).value;
    var am := Reopened(s.disk.value);
    State(s.files, s.disk, am, am.currIncr, [], loaded, None, loaded, Mark(0, []), Mark(0, []), Mark(0, []), false)
  }

  lemma RestartKeeps(s: State)
    requires Inv(s) && Replay(s.disk, s.files).Some?
    ensures Inv(Restarted(s)) && ListedSurvive(s, Restarted(s))
    ensures Clean(s) ==> Restarted(s).dataset == s.written
  {
    RecoversIffClean(s);
    var v, t := s.disk.value, Restarted(s);
    var live := Live(v);
    assert Live(t.am) == live;
    assert Good(t.am);
    assert live[|live| - 1] == IncrId(t.fd);
    hide Live, Concat, Good, Tracks;
    assert AtEnd(t.files, live, IncrId(t.fd), |live| - 1);
    assert t.written[..0] + [] + t.written[0..] == t.written;
    TracksFrom(t.am, t, t.amMark, |live| - 1);
    TracksFrom(v, t, t.diskMark, |live| - 1);
  }

  function FirstView(rdb: bool): View { View(BaseId(1, rdb), [1], [], 1, 1) }

  /**
    A first start: an empty base, the first INCR, and a manifest listing both.  The INCR is
    opened for appending, so a file of that name that is already there keeps its commands.
    */
  function Fresh(files: Files, rdb: bool): State {
    var am, stale := FirstView(rdb), Content(files, IncrId(1));
    State(files[BaseId(1, rdb) := []][IncrId(1) := stale], Some(am), am, 1, [], [], None,
          [], Mark(0, stale), Mark(0, stale), Mark(0, []), false)
  }

  lemma FreshInv(files: Files, rdb: bool)
    ensures Inv(Fresh(files, rdb))
  {
    var s := Fresh(files, rdb);
    var live, stale := Live(s.am), Content(files, IncrId(1));
    assert live == [BaseId(1, rdb), IncrId(1)];
    ConcatTwo(s.files, BaseId(1, rdb), IncrId(1));
    assert AtEnd(s.files, live, IncrId(1), 1);
    assert Good(s.am);
    assert s.written[..0] + stale + s.written[0..] == stale;
    hide Live, Concat, Good;
    TracksFrom(s.am, s, s.amMark, 1);
  }

  // ---- the calls ----

  /** How writeAofManifestFile ends; the last case has already renamed the file into place. */
  datatype Persist = PersistOk | NotRenamed | DirSyncFailed

  /** How much of the buffer the forced flush gets out. */
  datatype Extent = All | Part(n: nat)

  /** The outcomes of one rewriteAppendOnlyFileBackground call. */
  datatype StartEnv = StartEnv(dirOk: bool, flush: Extent, openOk: bool, persist: Persist, forkOk: bool)

  /** The outcomes of one aofDelHistoryFiles call; `removed` are the unlinks that succeed. */
  datatype GcEnv = GcEnv(autoGc: bool, removed: set<Id>, persist: Persist)

  /** The outcomes of one backgroundRewriteDoneHandler call. */
  datatype DoneEnv = DoneEnv(exitOk: bool, rdb: bool, renameOk: bool, persist: Persist, unlinkOk: bool, gc: GcEnv)

  function FlushCount(size: nat, flush: Extent): (n: nat)
    ensures n <= size
  {
    if flush.Part? && flush.n < size then flush.n else size
  }

  /** openNewIncrAofForAppend */
  function Opened(s: State, openOk: bool, persist: Persist): State {
    if !openOk then s
    else if persist.NotRenamed? then Truncated(s)
    else if persist.DirSyncFailed? then PersistedIncr(Truncated(s))
    else Switched(PersistedIncr(Truncated(s)))
  }

  /** rewriteAppendOnlyFileBackground */
  function Started(s: State, env: StartEnv): State {
    if s.child.Some? || !env.dirOk then s
    else
      var flushed := Flushed(s, FlushCount(|s.buf|, env.flush));
      var after := Opened(flushed, env.openOk, env.persist);
      if env.openOk && env.persist.PersistOk? && env.forkOk then Forked(after) else after
  }

  function HistorySet(s: State): set<Id> { set id | id in s.am.hist }

  /** aofDelHistoryFiles */
  function Collected(s: State, env: GcEnv): State {
    if !env.autoGc || s.am.hist == [] then s
    else
      var t := Forgotten(s.(files := s.files - (HistorySet(s) * env.removed)));
      if env.persist.NotRenamed? then t else PersistedSame(t)
  }

  /** backgroundRewriteDoneHandler */
  function Finished(s: State, env: DoneEnv): State
    requires s.child.Some? && s.am.incr != []
  {
    var t := s.(child := None);
    if !env.exitOk || !env.renameOk then t else Installed(t, env, s.child.value)
  }

  /** From the rename of the child's file on. */
  function Installed(s: State, env: DoneEnv, snapshot: seq<Cmd>): State
    requires s.am.incr != []
  {
    var r := Renamed(s, env.rdb, snapshot);
    match env.persist
    case NotRenamed => if env.unlinkOk then r.(files := r.files - {NextBase(s, env.rdb)}) else r
    case DirSyncFailed => if env.unlinkOk then Broken(PersistedBase(r, env.rdb)) else PersistedBase(r, env.rdb)
    case PersistOk => Collected(Adopted(PersistedBase(r, env.rdb)), env.gc)
  }
}
