/**
  Loading the files a manifest lists after a crash.  A write that the crash interrupts
  leaves a file whose last command is cut short; `torn` names such files, and `files`
  holds their whole commands.
  */
module AofRecover {
  import opened Wrappers
  import opened FileLog
  import opened AofDisk
  import opened AofRewriteSpec

  datatype Status = NotExist | LoadedOk | LoadedTruncated | Failed

  /** Only the last file may be torn, and only with aof-load-truncated on. */
  predicate Tolerated<K(==)>(live: seq<K>, torn: set<K>, lenient: bool) {
    forall i :: 0 <= i < |live| && live[i] in torn ==> lenient && i == |live| - 1
  }

  /** The dataset of a start on this directory, or None when the process refuses it. */
  function Load(disk: Option<View>, files: Files, torn: set<Id>, lenient: bool): Option<seq<Cmd>> {
    match disk
    case None => Some([])
    case Some(v) => if Tolerated(Live(v), torn, lenient) then Replay(disk, files) else None
  }

  function LastFile(v: View): Id { Live(v)[|v.incr|] }

  /** What a start leaves torn: the torn file it comes to first has its cut command truncated away. */
  ghost predicate Repaired<K>(names: seq<K>, torn: set<K>, left: set<K>) {
    exists i :: 0 <= i < |names| && names[i] in torn && left == torn - {names[i]}
  }

  /** The files in order; only the last may be torn. */
  method LoadInOrder<K(==), V>(names: seq<K>, files: map<K, seq<V>>, torn: set<K>, lenient: bool)
    returns (status: Status, data: seq<V>, left: set<K>)
    requires names != [] && Present(files, names)
    ensures status != NotExist && (status == Failed <==> !Tolerated(names, torn, lenient))
    ensures status != Failed ==> data == Concat(files, names)
    ensures status == LoadedOk ==> names[|names| - 1] !in torn && left == torn
    ensures status == LoadedTruncated ==> names[|names| - 1] in torn && left == torn - {names[|names| - 1]}
    ensures status == Failed ==> if lenient then Repaired(names, torn, left) else left == torn
  {
    hide Concat, Content;
    status, data, left := LoadedOk, [], torn;
    NothingRead(files, names);
    for i := 0 to |names|
      invariant forall j :: 0 <= j < i - 1 ==> names[j] !in torn
      invariant i > 0 && names[i - 1] in torn ==> lenient && i == |names|
      invariant status == if i > 0 && names[i - 1] in torn then LoadedTruncated else LoadedOk
      invariant left == if status == LoadedTruncated then torn - {names[|names| - 1]} else torn
      invariant data == Concat(files, names[..i])
    {
      var lastFile := i == |names| - 1;
      if names[i] in torn {
        if !lenient {
          return Failed, data, left;
        }
        left := left - {names[i]};
        if !lastFile {
          return Failed, data, left;
        }
        status := LoadedTruncated;
      }
      OneMore(files, names, i);
      data := data + files[names[i]];
    }
    assert names[..|names|] == names;
  }

  /** loadAppendOnlyFiles */
  method LoadAppendOnlyFiles(disk: Option<View>, files: Files, torn: set<Id>, lenient: bool)
    returns (status: Status, data: seq<Cmd>, left: set<Id>)
    ensures status == NotExist <==> disk == None
    ensures Load(disk, files, torn, lenient) == if status == Failed then None else Some(data)
    ensures disk.Some? && status == LoadedOk ==> LastFile(disk.value) !in torn && left == torn
    ensures disk.Some? && status == LoadedTruncated ==> LastFile(disk.value) in torn && left == torn - {LastFile(disk.value)}
    ensures disk.Some? && status == Failed ==>
              if lenient && Present(files, Live(disk.value)) then Repaired(Live(disk.value), torn, left) else left == torn
  {
    hide Concat, Tolerated, Repaired;
    if disk == None {
      return NotExist, [], torn;
    }
    var live := Live(disk.value);
    if exists i :: 0 <= i < |live| && live[i] !in files {
      return Failed, [], torn;
    }
    status, data, left := LoadInOrder(live, files, torn, lenient);
  }

  lemma NothingRead<K, V>(files: map<K, seq<V>>, names: seq<K>)
    ensures Concat(files, names[..0]) == []
  {
  }

  lemma OneMore<K, V>(files: map<K, seq<V>>, names: seq<K>, i: nat)
    requires i < |names| && names[i] in files
    ensures Concat(files, names[..i + 1]) == Concat(files, names[..i]) + files[names[i]]
  {
    assert names[..i + 1] == names[..i] + [names[i]];
    ConcatAppend(files, names[..i], [names[i]]);
    assert Concat(files, [names[i]]) == Content(files, names[i]);
  }

  // ---- crashes of a running log ----

  /** The crash interrupts a write to the current INCR, or no write. */
  function Torn(s: State, torn: bool): set<Id> { if torn then {IncrId(s.fd)} else {} }

  predicate FdLast(s: State) { s.disk.Some? && s.disk.value.incr != [] && s.disk.value.incr[|s.disk.value.incr| - 1] == s.fd }

  /** A start after a crash at this moment gives exactly the commands written. */
  predicate CrashRecovers(s: State, torn: bool, lenient: bool) {
    Load(s.disk, s.files, Torn(s, torn), lenient) == Some(s.written)
  }

  /** The current INCR is listed, so a torn tail is tolerated exactly if it is the last file listed. */
  lemma TornTolerated(s: State, lenient: bool)
    requires Inv(s) && !s.broken
    ensures Tolerated(Live(s.disk.value), Torn(s, true), lenient) <==> lenient && FdLast(s)
  {
    var v := s.disk.value;
    var live := Live(v);
    var k :| AtEnd(s.files, live, IncrId(s.fd), k);
    LiveDistinct(v);
    assert live[|live| - 1] == IncrId(v.incr[|v.incr| - 1]);
    hide Live, Good, Tracks;
  }

  /** Exactly when a crash in the middle of a write loses nothing but the command being written. */
  lemma CrashRecoversIff(s: State, torn: bool, lenient: bool)
    requires Inv(s)
    ensures CrashRecovers(s, torn, lenient) <==> Clean(s) && (torn ==> lenient && FdLast(s))
  {
    RecoversIffClean(s);
    if torn && !s.broken {
      TornTolerated(s, lenient);
    }
    hide Tracks, Good, Live, FdLast;
  }

  /** A torn file that is not the last is cut to whole commands by the start that refuses it, so the next start loads. */
  lemma SecondStartRecovers(s: State)
    requires Inv(s) && Clean(s) && !FdLast(s)
    ensures Load(s.disk, s.files, Torn(s, true), true) == None
    ensures forall left :: Repaired(Live(s.disk.value), Torn(s, true), left) ==> Load(s.disk, s.files, left, true) == Some(s.written)
  {
    TornTolerated(s, true);
    RecoversIffClean(s);
    hide Tracks, Good, Live, FdLast, Inv;
  }
}
