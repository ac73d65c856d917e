/**
  What is on disk for the append-only log: a manifest and the files it names.
  Files are identified by kind and sequence number; `Shows` ties such a view to
  the manifest with its rendered names.  Files hold whole commands, and a base
  file holds the commands its snapshot stands for.
  */
module AofDisk {
  import opened Wrappers
  import opened AofManifest
  import opened AofManifestOps
  import opened FileLog

  datatype Cmd = Cmd(db: nat, argv: seq<string>)

  datatype Id = BaseId(n: nat, rdb: bool) | IncrId(n: nat)

  type Files = map<Id, seq<Cmd>>

  /** The manifest of a running log: a base, INCR sequence numbers, history, counters. */
  datatype View = View(base: Id, incr: seq<nat>, hist: seq<Id>, currBase: nat, currIncr: nat)

  function IncrIds(incr: seq<nat>): (r: seq<Id>)
    ensures |r| == |incr| && forall i :: 0 <= i < |r| ==> r[i] == IncrId(incr[i])
  {
    seq(|incr|, i requires 0 <= i < |incr| => IncrId(incr[i]))
  }

  /** The files a restart replays, in order. */
  function Live(v: View): seq<Id> { [v.base] + IncrIds(v.incr) }

  /** loadAppendOnlyFiles: the dataset of a restart, or None when a listed file is missing. */
  function Replay(disk: Option<View>, files: Files): Option<seq<Cmd>> {
    match disk
    case None => Some([])
    case Some(v) => if Present(files, Live(v)) then Some(Concat(files, Live(v))) else None
  }

  // ---- the operations on views ----

  function NewIncr(v: View): View {
    v.(incr := v.incr + [v.currIncr + 1], currIncr := v.currIncr + 1)
  }

  /** A new base, with the previous one and all but the last INCR turned into history. */
  function Rewritten(v: View, rdb: bool): View
    requires v.incr != []
  {
    var keep := |v.incr| - 1;
    v.(base := BaseId(v.currBase + 1, rdb), incr := v.incr[keep..],
       hist := IncrIds(v.incr[..keep]) + [v.base] + v.hist, currBase := v.currBase + 1)
  }

  /** What the next process reads from the file. */
  function Reopened(v: View): View
    requires v.incr != []
  {
    v.(currBase := v.base.n, currIncr := v.incr[|v.incr| - 1])
  }

  /** A file of an earlier generation than the base and first INCR given. */
  predicate Older(id: Id, base: nat, incr: nat) {
    match id
    case BaseId(n, _) => n < base
    case IncrId(n) => n < incr
  }

  predicate Good(v: View) {
    && v.base.BaseId? && v.base.n <= v.currBase && v.incr != []
    && (forall i, j :: 0 <= i < j < |v.incr| ==> v.incr[i] < v.incr[j])
    && v.incr[|v.incr| - 1] <= v.currIncr
    && (forall i :: 0 <= i < |v.hist| ==> Older(v.hist[i], v.base.n, v.incr[0]))
  }

  lemma NewIncrGood(v: View)
    requires Good(v)
    ensures Good(NewIncr(v))
  {
  }

  lemma RewrittenGood(v: View, rdb: bool)
    requires Good(v)
    ensures Good(Rewritten(v, rdb))
  {
    var keep := |v.incr| - 1;
    var w := Rewritten(v, rdb);
    forall i | 0 <= i < |w.hist|
      ensures Older(w.hist[i], w.base.n, w.incr[0])
    {
      if i < keep {
        assert w.hist[i] == IncrId(v.incr[i]);
      } else if i > keep {
        assert w.hist[i] == v.hist[i - keep - 1];
      }
    }
  }

  // ---- views of manifests ----

  function Rendered(filename: string, id: Id): string {
    match id
    case BaseId(n, rdb) => BaseFileName(filename, n, rdb)
    case IncrId(n) => IncrFileName(filename, n)
  }

  lemma RenderedInjective(filename: string, a: Id, b: Id)
    requires Rendered(filename, a) == Rendered(filename, b)
    ensures a == b
  {
    hide BaseFileName, IncrFileName;
    NamesDistinct(filename, a.n, b.n, a.BaseId? && a.rdb, b.BaseId? && b.rdb);
    NamesDistinct(filename, b.n, a.n, b.BaseId? && b.rdb, a.BaseId? && a.rdb);
  }

  predicate Names(filename: string, info: Info, id: Id) {
    info.name == Rendered(filename, id) && info.fileSeq == id.n
  }

  /** The manifest lists exactly the files of the view, in the same order. */
  predicate Shows(filename: string, m: Manifest, v: View) {
    && m.base.Some? && Names(filename, m.base.value, v.base)
    && |m.incr| == |v.incr| && (forall i :: 0 <= i < |m.incr| ==> Names(filename, m.incr[i], IncrId(v.incr[i])))
    && |m.hist| == |v.hist| && (forall i :: 0 <= i < |m.hist| ==> Names(filename, m.hist[i], v.hist[i]))
    && m.currBase == v.currBase && m.currIncr == v.currIncr
  }

  lemma ShowsNewIncr(filename: string, m: Manifest, v: View, start: int)
    requires Shows(filename, m, v)
    ensures Shows(filename, WithNewIncr(m, filename, start), NewIncr(v))
  {
    hide BaseFileName, IncrFileName;
  }

  /** The two manifest changes of a finished rewrite, seen together. */
  lemma ShowsRewritten(filename: string, m: Manifest, v: View, rdb: bool)
    requires Shows(filename, m, v) && v.incr != []
    ensures Shows(filename, WithRewrittenAsHistory(WithNewBase(m, filename, rdb), true), Rewritten(v, rdb))
  {
    hide BaseFileName, IncrFileName;
    var keep := |v.incr| - 1;
    var m1 := WithNewBase(m, filename, rdb);
    var m2 := WithRewrittenAsHistory(m1, true);
    var w := Rewritten(v, rdb);
    forall i | 0 <= i < |m2.hist|
      ensures Names(filename, m2.hist[i], w.hist[i])
    {
      if i < keep {
        assert m2.hist[i] == m.incr[i].(ftype := Hist) && w.hist[i] == IncrId(v.incr[i]);
      } else if i == keep {
        assert m2.hist[i] == m.base.value.(ftype := Hist) && w.hist[i] == v.base;
      } else {
        assert m2.hist[i] == m.hist[i - keep - 1] && w.hist[i] == v.hist[i - keep - 1];
      }
    }
  }

  lemma ShowsReloaded(filename: string, m: Manifest, v: View)
    requires Shows(filename, m, v) && v.incr != [] && v.base.BaseId?
    ensures Shows(filename, Reloaded(m), Reopened(v))
  {
    hide BaseFileName, IncrFileName;
  }

  // ---- following the log ----

  /**
    `v` describes everything written so far: it lists the current INCR `fd`,
    lists nothing non-empty after it, and replays to the written commands with
    `ahead` put in at position `p`.
    */
  ghost predicate Tracks(v: View, files: Files, fd: nat, written: seq<Cmd>, p: nat, ahead: seq<Cmd>) {
    && Good(v)
    && Present(files, Live(v))
    && (exists k :: AtEnd(files, Live(v), IncrId(fd), k))
    && p <= |written|
    && Concat(files, Live(v)) == written[..p] + ahead + written[p..]
  }

  /** File `id` is the `k`th of the names, and those after it are empty. */
  ghost predicate AtEnd(files: Files, names: seq<Id>, id: Id, k: int) {
    && 0 <= k < |names| && names[k] == id
    && forall j :: k < j < |names| ==> Content(files, names[j]) == []
  }

  lemma LiveDistinct(v: View)
    requires Good(v)
    ensures Distinct(Live(v))
  {
  }

  lemma TracksReplay(v: View, files: Files, fd: nat, written: seq<Cmd>, p: nat, ahead: seq<Cmd>)
    requires Tracks(v, files, fd, written, p, ahead)
    ensures Replay(Some(v), files) == Some(written) <==> ahead == []
  {
    if ahead == [] {
      assert written[..p] + [] + written[p..] == written;
    } else {
      assert |written[..p] + ahead + written[p..]| > |written|;
    }
  }

  lemma SliceGrows(written: seq<Cmd>, w: seq<Cmd>, p: nat, ahead: seq<Cmd>)
    requires p <= |written|
    ensures (written + w)[..p] + ahead + (written + w)[p..] == written[..p] + ahead + written[p..] + w
  {
    assert (written + w)[..p] == written[..p] && (written + w)[p..] == written[p..] + w;
  }

  /** A write to the current file keeps a tracking view tracking. */
  lemma TracksWrite(v: View, files: Files, fd: nat, written: seq<Cmd>, p: nat, ahead: seq<Cmd>, w: seq<Cmd>)
    requires Tracks(v, files, fd, written, p, ahead)
    ensures Tracks(v, Grown(files, IncrId(fd), w), fd, written + w, p, ahead)
  {
    LiveDistinct(v);
    hide Good, Concat, Live;
    var k :| AtEnd(files, Live(v), IncrId(fd), k);
    ConcatGrows(files, Live(v), k, w);
    assert AtEnd(Grown(files, IncrId(fd), w), Live(v), IncrId(fd), k);
    SliceGrows(written, w, p, ahead);
  }

  /** Changing files that are not live does not matter. */
  lemma TracksOther(v: View, files: Files, files': Files, fd: nat, written: seq<Cmd>, p: nat, ahead: seq<Cmd>)
    requires Tracks(v, files, fd, written, p, ahead)
    requires forall id :: id in Live(v) ==> id in files' && Content(files', id) == Content(files, id)
    ensures Tracks(v, files', fd, written, p, ahead)
  {
    hide Good, Concat, Live, Content;
    assert forall i :: 0 <= i < |Live(v)| ==> Live(v)[i] in Live(v);
    ConcatSame(files, files', Live(v));
    var k :| AtEnd(files, Live(v), IncrId(fd), k);
    assert AtEnd(files', Live(v), IncrId(fd), k);
  }
}
