/**
  Flushing the append-only buffer under full writes, short writes, errors and failing
  truncation.  A server start opens the file for appending; a rewrite opens the next one
  without that flag, so that its writes go where the last one ended.
  */
module AofFlush {
  datatype Policy = Always | EverySecond | Never

  /** One write call. */
  datatype WriteCall = Wrote(n: nat) | Interrupted | WriteError

  /** What the system does during one flush, and what the server knows at its start. */
  datatype FlushEnv = FlushEnv(
    writes: seq<WriteCall>, truncateOk: bool, fsyncOk: bool, syncInProgress: bool, childActive: bool, now: int)

  /** How much of `len` bytes a run of write calls transfers; a run that ends early ends in an error. */
  function Transferred(writes: seq<WriteCall>, len: nat): (n: nat)
    ensures n <= len
  {
    if len == 0 || writes == [] then 0
    else
      match writes[0]
      case WriteError => 0
      case Interrupted => Transferred(writes[1..], len)
      case Wrote(n) =>
        var k := if n < len then n else len;
        k + Transferred(writes[1..], len - k)
  }

  const NUL: char := 0 as char

  /** A file written to at `pos` is filled up to there with zero bytes. */
  function Padded(file: string, pos: nat): (r: string)
    ensures |r| == (if pos > |file| then pos else |file|) && file <= r
    ensures pos <= |file| ==> r == file
  {
    if pos > |file| then file + seq(pos - |file|, _ => NUL) else file
  }

  class AofFile {
    /** The bytes of the file. */
    var file: string
    /** Where the descriptor stands. */
    var pos: nat
    var buf: string
    var lastIncrSize: nat
    var fsyncOffset: nat
    var writeFailed: bool
    var postponedStart: int
    var lastFsync: int
    var exited: bool
    const append: bool
    const policy: Policy
    const noFsyncOnRewrite: bool
    /** Everything fed since the file was opened, after what it held then. */
    ghost var fed: string

    ghost predicate Valid()
      reads this
    {
      file + buf == fed && lastIncrSize == |file| <= pos && fsyncOffset <= lastIncrSize && !exited
    }

    /** How far the descriptor stands behind the end of the file. */
    function Gap(): int
      reads this
    {
      if append then 0 else pos - |file|
    }

    /** A file opened for appending, or a new one that is not. */
    constructor (content: string, append: bool, policy: Policy, noFsyncOnRewrite: bool)
      requires !append ==> content == []
      ensures Valid() && fed == file == content && buf == [] && Gap() == 0
      ensures this.policy == policy && this.append == append
    {
      file, pos, buf, fed := content, |content|, [], content;
      this.append := append;
      lastIncrSize, fsyncOffset := |content|, |content|;
      writeFailed, postponedStart, lastFsync, exited := false, 0, 0, false;
      this.policy, this.noFsyncOnRewrite := policy, noFsyncOnRewrite;
    }

    method Feed(bytes: string)
      requires Valid()
      modifies this`buf, this`fed
      ensures Valid() && fed == old(fed) + bytes && buf == old(buf) + bytes && Gap() == old(Gap())
    {
      buf := buf + bytes;
      fed := fed + bytes;
      assert file + (old(buf) + bytes) == file + old(buf) + bytes;
    }

    /** aofWrite: the calls go on after short and interrupted ones. */
    method Write(data: string, writes: seq<WriteCall>) returns (nwritten: int)
      requires |file| <= pos
      modifies this`file, this`pos
      ensures var k := Transferred(writes, |data|);
        && file == (if k == 0 then old(file) else Padded(old(file), |old(file)| + old(Gap())) + data[..k])
        && Gap() == (if k == 0 then old(Gap()) else 0) && |file| <= pos
        && nwritten == if k == 0 && data != [] then -1 else k
    {
      hide Padded;
      if append {
        pos := |file|;
      }
      ghost var start, at := file, pos;
      var i, total := 0, 0;
      assert data[..0] == [] && data[0..] == data;
      while total < |data| && i < |writes|
        invariant 0 <= i <= |writes| && 0 <= total <= |data|
        invariant file == (if total == 0 then start else Padded(start, at) + data[..total])
        invariant pos == at + total
        invariant Transferred(writes, |data|) == total + Transferred(writes[i..], |data| - total)
        decreases |writes| - i
      {
        match writes[i] {
          case WriteError =>
            return if total == 0 then -1 else total;
          case Interrupted =>
          case Wrote(n) =>
            var k := if n < |data| - total then n else |data| - total;
            if k > 0 {
              PadStep(start, at, data, total, k);
              file := Padded(file, pos) + data[total..total + k];
              pos := pos + k;
              total := total + k;
            }
        }
        i := i + 1;
      }
      return if total == 0 && data != [] then -1 else total;
    }

    /** The part of a flush that syncs. */
    method TrySync(env: FlushEnv)
      requires fsyncOffset <= lastIncrSize && !exited
      modifies this`fsyncOffset, this`lastFsync, this`exited
      ensures exited ==> policy.Always? && !env.fsyncOk
      ensures old(Valid()) && !exited ==> Valid()
      ensures var skips := noFsyncOnRewrite && env.childActive;
        var due := policy.EverySecond? && env.now - old(lastFsync) >= 1000;
        && (exited <==> policy.Always? && !skips && !env.fsyncOk)
        && fsyncOffset == (if !skips && ((policy.Always? && env.fsyncOk) || (due && !env.syncInProgress)) then lastIncrSize else old(fsyncOffset))
        && lastFsync == (if !skips && ((policy.Always? && env.fsyncOk) || due) then env.now else old(lastFsync))
    {
      if noFsyncOnRewrite && env.childActive {
        return;
      }
      if policy.Always? {
        if !env.fsyncOk {
          exited := true;
          return;
        }
        fsyncOffset := lastIncrSize;
        lastFsync := env.now;
      } else if policy.EverySecond? && env.now - lastFsync >= 1000 {
        if !env.syncInProgress {
          fsyncOffset := lastIncrSize;
        }
        lastFsync := env.now;
      }
    }

    /** Some of the buffer reaches the file and stays there. */
    ghost predicate Stays(env: FlushEnv)
      reads this
    {
      var k := Transferred(env.writes, |buf|);
      k > 0 && (k == |buf| || !env.truncateOk)
    }

    /**
      flushAppendOnlyFile. Nothing fed is lost or doubled: what a short write left behind is
      either cut off again or taken out of the buffer.  That holds exactly unless bytes are
      written behind a gap, which a short write that was cut off leaves on a descriptor that
      does not append; then zero bytes get into the file.
      */
    method Flush(force: bool, env: FlushEnv)
      requires Valid()
      modifies this`file, this`pos, this`buf, this`lastIncrSize, this`fsyncOffset, this`writeFailed, this`postponedStart,
               this`lastFsync, this`exited
      ensures var off := policy.EverySecond? && !force && env.syncInProgress &&
                (old(postponedStart) == 0 || env.now - old(postponedStart) < 2000);
              var acts := old(buf) != [] && !off;
              var k := Transferred(env.writes, |old(buf)|);
        && (exited ==> policy.Always?)
        && (!exited ==> (Valid() <==> !(acts && old(Gap()) > 0 && old(Stays(env)))))
        && (!exited && acts && old(Stays(env)) ==>
             file == Padded(old(file), |old(file)| + old(Gap())) + old(buf)[..k] && buf == old(buf)[k..])
        && (!exited && !Valid() ==> |file| + |buf| == |fed| + old(Gap()))
        && (!exited && Valid() ==> old(file) <= file <= fed)
        && (!exited && Valid() && acts ==>
             if k == |old(buf)| then buf == [] && !writeFailed && Gap() == 0
             else writeFailed && file == old(file) + old(buf)[..if env.truncateOk then 0 else k]
                  && Gap() == (if append || (k > 0 && !env.truncateOk) then 0 else old(Gap()) + k))
        && (!acts ==> file == old(file) && buf == old(buf) && Gap() == old(Gap()))
        && (!exited && !(noFsyncOnRewrite && env.childActive) && (old(buf) == [] || (acts && k == |old(buf)|)) ==>
             && (policy.Always? ==> fsyncOffset == lastIncrSize)
             && (policy.EverySecond? && env.now - old(lastFsync) >= 1000 && !env.syncInProgress ==> fsyncOffset == lastIncrSize))
        && postponedStart == (if acts then 0 else if old(buf) != [] && old(postponedStart) == 0 then env.now else old(postponedStart))
    {
      if buf == [] {
        if fsyncOffset != lastIncrSize {
          if (policy.EverySecond? && env.now - lastFsync >= 1000 && !env.syncInProgress) || policy.Always? {
            TrySync(env);
          }
        }
        return;
      }
      if policy.EverySecond? && !force && env.syncInProgress {
        if postponedStart == 0 {
          postponedStart := env.now;
          return;
        } else if env.now - postponedStart < 2000 {
          return;
        }
      }
      var full := WriteOut(env);
      if full {
        TrySync(env);
      }
    }

    /** The write and what comes of a short one. */
    method WriteOut(env: FlushEnv) returns (full: bool)
      requires Valid() && buf != []
      modifies this`file, this`pos, this`buf, this`lastIncrSize, this`writeFailed, this`postponedStart, this`exited
      ensures postponedStart == 0 && (full <==> Transferred(env.writes, |old(buf)|) == |old(buf)|)
      ensures exited <==> policy.Always? && !full
      ensures lastIncrSize >= old(lastIncrSize)
      ensures !exited ==> (Valid() <==> !(old(Gap()) > 0 && old(Stays(env))))
      ensures !exited && old(Stays(env)) ==>
        var k := Transferred(env.writes, |old(buf)|);
        file == Padded(old(file), |old(file)| + old(Gap())) + old(buf)[..k] && buf == old(buf)[k..]
      ensures !exited && !Valid() ==> |file| + |buf| == |fed| + old(Gap())
      ensures !exited && Valid() ==> old(file) <= file <= fed
      ensures !exited && Valid() ==>
        var k := Transferred(env.writes, |old(buf)|);
        if k == |old(buf)| then buf == [] && !writeFailed && Gap() == 0
        else writeFailed && file == old(file) + old(buf)[..if env.truncateOk then 0 else k]
             && Gap() == (if append || (k > 0 && !env.truncateOk) then 0 else old(Gap()) + k)
    {
      hide Padded, Transferred;
      ghost var k := Transferred(env.writes, |buf|);
      var before := file;
      var nwritten := Write(buf, env.writes);
      PrefixSplit(before, buf, k);
      postponedStart := 0;
      if nwritten != |buf| {
        if nwritten != -1 {
          if env.truncateOk {
            file := file[..lastIncrSize];
            assert file == before;
            nwritten := -1;
          }
        }
        if policy.Always? {
          exited := true;
          return false;
        }
        writeFailed := true;
        if nwritten > 0 {
          lastIncrSize := lastIncrSize + nwritten;
          buf := buf[nwritten..];
        }
        assert before + old(buf)[..0] == before;
        return false;
      }
      writeFailed := false;
      lastIncrSize := lastIncrSize + nwritten;
      buf := [];
      assert old(buf)[..|old(buf)|] == old(buf) && file + [] == file;
      return true;
    }
  }

  lemma PadStep(start: string, at: nat, data: string, total: nat, k: nat)
    requires |start| <= at && total + k <= |data|
    ensures var file := if total == 0 then start else Padded(start, at) + data[..total];
            Padded(file, at + total) + data[total..total + k] == Padded(start, at) + data[..total + k]
  {
    hide Padded;
    assert data[..total + k] == data[..total] + data[total..total + k];
  }

  lemma PrefixSplit(file: string, buf: string, k: nat)
    requires k <= |buf|
    ensures file + buf[..k] + buf[k..] == file + buf && file + buf[..k] <= file + buf
  {
    assert buf[..k] + buf[k..] == buf;
  }

  // ---- every run ----

  datatype Action = FeedBytes(bytes: string) | FlushOnce(force: bool, env: FlushEnv)

  /** All the bytes the actions feed, in order. */
  function Fed(actions: seq<Action>): string {
    if actions == [] then []
    else
      var last := actions[|actions| - 1];
      Fed(actions[..|actions| - 1]) + (if last.FeedBytes? then last.bytes else [])
  }

  /**
    Whatever is fed and however the writes go, file and buffer together are the bytes fed, until
    the server exits or a flush writes behind a gap (`ok` is false); an appending descriptor has no gap.
    */
  method RunActions(aof: AofFile, actions: seq<Action>) returns (ok: bool)
    requires aof.Valid()
    modifies aof
    ensures ok ==> aof.Valid() && aof.file + aof.buf == old(aof.fed) + Fed(actions)
    ensures !ok && aof.exited ==> aof.policy.Always?
    ensures !ok && !aof.exited ==> !aof.append && |aof.file| + |aof.buf| > |aof.fed|
  {
    assert actions[..0] == [];
    assert old(aof.fed) + Fed([]) == old(aof.fed);
    for i := 0 to |actions|
      invariant aof.Valid() && aof.fed == old(aof.fed) + Fed(actions[..i])
    {
      assert actions[..i + 1][..i] == actions[..i];
      match actions[i] {
        case FeedBytes(bytes) =>
          aof.Feed(bytes);
          assert old(aof.fed) + Fed(actions[..i]) + bytes == old(aof.fed) + Fed(actions[..i + 1]);
        case FlushOnce(force, env) =>
          var gap := aof.Gap();
          var pending := |aof.file| + |aof.buf|;
          aof.Flush(force, env);
          assert Fed(actions[..i]) + [] == Fed(actions[..i]);
          if aof.exited || |aof.file| + |aof.buf| != pending {
            return false;
          }
          assert aof.Valid();
      }
    }
    assert actions[..|actions|] == actions;
    return true;
  }

  /**
    Two flushes of a file opened by a rewrite: the first is short and cut off again, the
    second goes through, and a zero byte stands in front of what it wrote.
    */
  method HoleAfterShortWrite() returns (aof: AofFile)
    ensures fresh(aof) && aof.fed == "ab" && aof.buf == [] && aof.file == [NUL, 'a', 'b']
  {
    aof := new AofFile([], false, EverySecond, false);
    aof.Feed("ab");
    assert [] + "ab" == "ab";
    var short := [Wrote(1), WriteError];
    assert short[1..] == [WriteError];
    assert Transferred(short, 2) == 1;
    aof.Flush(true, FlushEnv(short, true, true, false, false, 0));
    assert aof.Gap() == 1 && aof.file == [] && aof.buf == "ab";
    var full := [Wrote(2)];
    assert Transferred(full, 2) == 2;
    aof.Flush(true, FlushEnv(full, true, true, false, false, 0));
    assert Padded([], 1) == [NUL];
    assert "ab"[..2] == "ab" && [NUL] + "ab" == [NUL, 'a', 'b'];
  }

  /**
    However long a sync runs, a flush is put off for two seconds at most: of two flushes that
    far apart, with nothing in between to empty the buffer, one writes.
    */
  method PutOffOnce(aof: AofFile, first: FlushEnv, second: FlushEnv)
    requires aof.Valid() && aof.Gap() == 0 && aof.buf != []
    requires 0 < first.now && aof.postponedStart <= first.now && second.now >= first.now + 2000
    requires Transferred(first.writes, |aof.buf|) == Transferred(second.writes, |aof.buf|) == |aof.buf|
    modifies aof
    ensures aof.exited || (aof.Valid() && aof.buf == [])
  {
    aof.Flush(false, first);
    if aof.exited || aof.buf == [] {
      return;
    }
    aof.Flush(false, second);
  }
}
