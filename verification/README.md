# Verified models of Redis cores

This project models parts of Redis 8.0.3 (`redis-stable/src`) in Dafny and proves what
they are for. Every file is one module; `dafny verify dfyconfig.toml` checks all of them.

- **CRC-64** (`Crc64*.dfy`). `Crc64Spec` defines the checksum by one step, clocking a zero bit.
  The bit-by-bit loop, the tables, the eight-byte step, the two- and three-way split buffers and
  the cache of matrix powers are all related to that step, for every length, address, start
  value and pair of cutoffs, on both byte orders.
- **AOF manifest** (`SdsText`, `AofManifest`, `AofManifestOps`, `AofManifestRuns`): printing, loading,
  the mutators, and every run of them.
- **AOF rewrite protocol** (`FileLog`, `AofDisk`, `AofRewriteSpec`, `AofRewrite`, `AofRecover`, `AofRuns`,
  `AofCalls`). A state is the manifest in memory, the one on disk, and the files. `AofRewrite.Server`
  performs each system call as its own moment. `AofRuns` has every run of the single steps from the
  first start on: the place in the code decides which step comes next, and the process can crash between
  any two of them or in the middle of a write. `AofRecover` loads what a crash left; `AofCalls` shows that
  the calls are such runs, and exactly when a call leaves a log that loads.
- **AOF log** (`AofText`, `AofFeed`, `AofLoad`, `AofFlush`): the text of commands, feeding, loading,
  loading after a cut at any byte, and flushing under short writes and errors.
- **ACL command rules** (`AclTable`, `AclRules`, `AclText`, `AclWords`, `AclSelector`, `AclLimits`): a rule is an
  overwrite of coordinates; compaction drops a rule only when a newer one covers it; so the text
  replays to the live permissions.
- **Blocked clients** (`BlockedIndex`, `BlockedServe`, `Blocked`): the two-sided index with its counters,
  who is served in a pass over the waiters of a key, and the ready queue that is swapped out while it is drained.
- **Bit operations** (`BitString`, `Popcount`, `Bitpos`, `BitCommands`, `PowerOfTwo`,
  `BitfieldOverflow`, `Bitfield`): BITCOUNT, BITPOS and BITFIELD down to the word tricks.
- **Background workers** (`Bio`): every interleaving of clients and workers, one step per access
  under a mutex.
- **MIGRATE** (`Migrate`) and **hash slots** (`Slots`, `GlobSearch`).

Objects that the source updates in place are classes; loops are loops; what only computes is a
function. A method's contract ties it to a specification function or states the property outright,
and the lemmas are about those functions. System calls, sockets, clocks and the commands of
clients are parameters: sequences or records of outcomes, over which every statement is quantified.

## Where the code falls short of the property

Each of these has a lemma that shows it and a lemma that says exactly when the property holds.

- The manifest is renamed into place before its directory is synced. If that sync fails, the end
  of a rewrite unlinks the base that the disk already lists, and the log no longer loads
  (`AofCalls.DirSyncFailureLosesTheBase`, `AofCalls.DoneRecoversIff`).
- If that sync fails at the start of a rewrite, the disk lists an empty INCR behind the one still
  written to, and a write torn by a crash makes the log unloadable for one start
  (`AofCalls.DirSyncFailureExposesTornWrites`, `AofCalls.StartCrashRecoversIff`).
- If the forced flush before a fork falls short, the snapshot holds commands that the next INCR
  will hold again (`AofCalls.ShortFlushRunsTwice`, `AofCalls.RewriteRecoversIff`).
- A rewrite opens its INCR without the append flag. A short write that is truncated away leaves the
  descriptor past the end of the file, and the next write puts zero bytes into the log
  (`AofFlush.HoleAfterShortWrite`, `AofFlush.AofFile.Flush`).
- A first start opens its INCR for appending, and replays what a stray file of that name holds
  (`AofCalls.FreshRecoversIff`, both directions).
- A file name with a single quote is printed without quoting and is not read back
  (`AofManifestOps.QuoteInName`, `AofManifestOps.ParsesBackIff`, `AofManifestRuns.EveryRunLoadsIff`).
- A first-argument rule with a blank or a quote is accepted but does not survive its own text
  (`AclLimits.BlankIsLost`, `AclLimits.FirstArgReplaysIff`).
- Saturating SET of a signed field stores the maximum for values far below the range
  (`BitfieldOverflow.LeastSaturatesUp`, `BitfieldOverflow.SaturatingSetIff`).
- A pattern of more than 1000 nested star runs matches nothing, also not what it stands for
  (`GlobSearch.DeepPatternIsRefused`, `GlobSearch.MatchesIsPlain`).

## Model

| member | source | states |
|---|---|---|
| `Crc64Bitwise.Crc64` | redis-stable/src/crc64.c:110-133 | the bit-by-bit loop returns the polynomial checksum `Crc`, clocked lowest bit first, of the data from the reflected start value |
| `Crc64Bitwise.ShiftIn` | redis-stable/src/crc64.c:116-130 | shifting one byte in bit by bit, highest bit of the register first, mirrors one byte step of `Crc` |
| `Crc64Bitwise.ReflectInvolution` | redis-stable/src/crc64.c:72-100 | reversing the bits of a word twice gives the word back |
| `Crc64Bitwise.StepsMirror` | redis-stable/src/crc64.c:116-130 | one bit step of the mirrored register is the mirror of one bit step |
| `Crc64Spec.ZeroBitsLinear` | redis-stable/src/crcspeed.c:47-63 | clocking any number of zero bits is linear over exclusive or |
| `Crc64Spec.CrcAppend` | redis-stable/src/crc64.c:110-133 | the checksum of a concatenation is the checksum of the second part from that of the first |
| `Crc64Spec.CrcSplits` | redis-stable/src/crccombine.c:225-250 | a checksum is its start value clocked through as many zeros, combined with the checksum from zero |
| `Crc64Spec.CrcOfWord` | redis-stable/src/crcspeed.c:130-142 | up to eight bytes are clocked in as one little-endian word |
| `Crc64Speed.Engine.constructor` | redis-stable/src/crcspeed.c:160-166 | the default cutoffs and zeroed tables |
| `Crc64Speed.Engine.SetCutoffs` | redis-stable/src/crcspeed.c:169-172 | the cutoffs can be set to anything |
| `Crc64Speed.Engine.InitLittle` | redis-stable/src/crcspeed.c:47-63 | table k at byte b holds b followed by k zero bytes, for all eight tables and all bytes |
| `Crc64Speed.Engine.FillColumn` | redis-stable/src/crcspeed.c:54-62 | each further table entry follows from the one before, other entries unchanged |
| `Crc64Speed.Engine.Do1` | redis-stable/src/crcspeed.c:187-191 | one table lookup is one byte step of `Crc` |
| `Crc64Speed.Peel` | redis-stable/src/crcspeed.c:130-142 | the low byte of a word goes through a table, the rest only moves down |
| `Crc64Speed.SlicesClockTheWord` | redis-stable/src/crcspeed.c:130-142 | the bytes of a word looked up in their own tables add up to the word clocked through |
| `Crc64Speed.EightSlices` | redis-stable/src/crcspeed.c:130-142 | the eight lookups of one step clock 64 zero bits, in the order the macro combines them |
| `Crc64Speed.Engine.Do8` | redis-stable/src/crcspeed.c:130-142 | one eight-byte step is the checksum of those eight bytes |
| `Crc64Speed.Engine.TripleLoop` | redis-stable/src/crcspeed.c:193-210 | the interleaved loop leaves three checksums, of three adjacent thirds |
| `Crc64Speed.Engine.Triple` | redis-stable/src/crcspeed.c:193-215 | the merged thirds are the checksum of the whole stretch, at every length |
| `Crc64Speed.Engine.DualLoop` | redis-stable/src/crcspeed.c:216-230 | the interleaved loop leaves two checksums, of two adjacent halves |
| `Crc64Speed.Engine.Dual` | redis-stable/src/crcspeed.c:216-235 | the merged halves are the checksum of the whole stretch, at every length |
| `Crc64Speed.Engine.Little` | redis-stable/src/crcspeed.c:179-253 | for every address, length, start value and pair of cutoffs the fast form returns `Crc` |
| `Crc64Big.Rev8Involution` | redis-stable/src/crcspeed.c:89-101 | reversing the bytes of a word twice gives the word back |
| `Crc64Big.InitBig` | redis-stable/src/crcspeed.c:105-113 | every table entry of the big-endian form is the byte-reversed little-endian one |
| `Crc64Big.Do8` | redis-stable/src/crcspeed.c:307-341 | an eight-byte step on reversed registers is the reversed checksum |
| `Crc64Big.Big` | redis-stable/src/crcspeed.c:307-341 | the big-endian form returns the same checksum |
| `Crc64Big.Crc64Init` | redis-stable/src/crc64.c:138-140 | the tables suit the byte order of the machine |
| `Crc64Big.Crc64` | redis-stable/src/crc64.c:143-145 | on either byte order the result is what the bit-by-bit form returns from the reflected checksum |
| `Crc64CheckValue.CheckValue` | redis-stable/src/crc64.c:267-270 | the checksum of the nine digits is e9c6d914c4b8d9ca |
| `Crc64Combine.TimesSwitch` | redis-stable/src/crccombine.c:47-112 | the nibble switch computes the matrix times the vector, for every matrix and vector |
| `Crc64Combine.SquareRepresents` | redis-stable/src/crccombine.c:172-177 | if a matrix clocks n zero bits, its square clocks 2n |
| `Crc64Combine.MatrixSquare` | redis-stable/src/crccombine.c:172-177 | squaring in place into another row of the cache, leaving the other rows alone |
| `Crc64Combine.OneZeroBit` | redis-stable/src/crccombine.c:192-201 | the first matrix, with the polynomial in its first row, clocks one zero bit |
| `Crc64Combine.FirstMatrix` | redis-stable/src/crccombine.c:192-201 | row 1 of the cache is filled with the matrix for one zero bit |
| `Crc64Combine.InitCombineCache` | redis-stable/src/crccombine.c:192-212 | row k of the cache clocks 2^k zero bytes, for k from 0 to 63 |
| `Crc64Combine.ZeroBytes` | redis-stable/src/crccombine.c:235-245 | the walk over the bits of the length clocks exactly that many zero bytes |
| `Crc64Combine.JoinedMeaning` | redis-stable/src/crccombine.c:225-250 | the joined value is the checksum of A followed by B, for every B with the given checksum and length |
| `Crc64Combine.Combine` | redis-stable/src/crccombine.c:225-250 | joins the checksums of two adjacent blocks, filling the cache when it is needed |
| `SdsText.SplitRepr` | redis-stable/src/sds.c:895-919 | a quoted string is read back as one argument, whatever bytes it holds |
| `SdsText.SplitBare` | redis-stable/src/sds.c:991-1099 | a word without blanks and quotes is one argument |
| `SdsText.SplitSelfIff` | redis-stable/src/sds.c:991-1099 | a text is its own only argument exactly if it holds no quote and no separator |
| `SdsText.EscapesAre` | redis-stable/src/sds.c:895-920 | the escape of every kind of character |
| `AofManifest.RoundTrip` | redis-stable/src/aof.c:197-225 | loading a printed manifest succeeds and returns the same base, history and INCR entries, with the counters of the next process |
| `AofManifest.ParseInfo` | redis-stable/src/aof.c:293-360 | a printed line parses back into the entry it was printed from |
| `AofManifest.EmptyDoesNotLoad` | redis-stable/src/aof.c:261-376 | an empty manifest prints as an empty file, which is refused |
| `AofManifestOps.ParsesBackIff` | redis-stable/src/aof.c:117-342 | for every entry: its printed line is loaded as that entry exactly if the name is a nonempty base name without NUL that is quoted or holds no single quote, the number is not zero, and an end offset comes with a start offset |
| `AofManifestOps.QuoteInName` | redis-stable/src/sds.c:928-939 | a name with a single quote that is printed bare is never read back |
| `AofManifestOps.QuoteToken` | redis-stable/src/sds.c:928-939 | reading a name with a bare single quote fails, or the quote is the last character and a shorter name is read |
| `AofManifestOps.NamesDistinct` | redis-stable/src/aof.c:436-474 | names of different sequence numbers, kinds or formats differ |
| `AofManifestOps.SampleNames` | redis-stable/src/aof.c:62-67 | the file names of the comment at the head of the source |
| `AofManifestOps.LineIs` | redis-stable/src/aof.c:117-139 | a line of the manifest, word by word |
| `AofManifestOps.ApplyKeeps` | redis-stable/src/aof.c:436-532 | every mutator keeps one base at most, lists of the right types and strictly increasing INCR numbers |
| `AofManifestOps.NothingLost` | redis-stable/src/aof.c:436-532 | no mutator loses an entry: the entries after are those before, types aside, and the created one |
| `AofManifestOps.NothingLostOverRuns` | redis-stable/src/aof.c:436-532 | the same over every sequence of mutators |
| `AofManifestOps.ManifestObject.constructor` | redis-stable/src/aof.c:153-162 | an empty manifest |
| `AofManifestOps.ManifestObject.Dup` | redis-stable/src/aof.c:400-417 | a copy with the same content |
| `AofManifestOps.ManifestObject.NewBase` | redis-stable/src/aof.c:436-455 | the new base is in place and the former one heads the history |
| `AofManifestOps.ManifestObject.NewIncr` | redis-stable/src/aof.c:464-474 | an INCR entry with the next number is appended |
| `AofManifestOps.ManifestObject.LastIncr` | redis-stable/src/aof.c:483-495 | the last INCR name, creating one if there is none |
| `AofManifestOps.ManifestObject.MarkRewritten` | redis-stable/src/aof.c:502-532 | the backward walk moves all but the open INCR to the history, in order |
| `AofManifestOps.PrintManifest` | redis-stable/src/aof.c:197-225 | the text of base, history and INCR entries, line by line |
| `AofManifestOps.LoadManifest` | redis-stable/src/aof.c:261-376 | the line loop returns what the recursive reader defines, errors included |
| `AofManifestRuns.EveryRunLoadsIff` | redis-stable/src/aof.c:197-532 | after every sequence of mutators from an empty manifest on, the printed file loads back to the same entries exactly if the configured name is quoted or holds no single quote |
| `AofManifestRuns.RunNames` | redis-stable/src/aof.c:436-532 | every entry of every run is named after its own number, which counts up from one |
| `AofManifestRuns.QuotedRunIsRefused` | redis-stable/src/aof.c:296-319 | with a bare single quote in the configured name every nonempty manifest is refused at its first line |
| `AofManifestRuns.LoadsIff` | redis-stable/src/aof.c:261-376 | a file of printed lines, of any types in any order, loads exactly if it is not empty, has one base at most and growing INCR numbers, and then to these entries |
| `AofManifestRuns.LoadedIsSound` | redis-stable/src/aof.c:261-376 | whatever the file holds, a manifest that loads has lists of the right types, growing INCR numbers, base names without NUL, nonzero numbers and its own counters |
| `AofDisk.RenderedInjective` | redis-stable/src/aof.c:436-474 | file identities and rendered file names correspond one to one |
| `AofDisk.ShowsNewIncr` | redis-stable/src/aof.c:464-474 | opening an INCR on the identities is the manifest operation on the names |
| `AofDisk.ShowsRewritten` | redis-stable/src/aof.c:2691-2771 | taking a new base over is the pair of manifest operations on the names |
| `AofDisk.ShowsReloaded` | redis-stable/src/aof.c:723-778 | what the next process reads is the view with its counters recomputed |
| `AofDisk.TracksReplay` | redis-stable/src/aof.c:1734-1857 | a tracked manifest replays to the written commands exactly if no base holds unwritten ones |
| `AofRewriteSpec.RecoversIffClean` | redis-stable/src/aof.c:1734-1857 | in every reachable state a restart gives the written commands exactly if no failed directory sync removed the base and no snapshot ran ahead |
| `AofRewriteSpec.FlushKeeps` | redis-stable/src/aof.c:1143-1351 | a partial or full flush keeps the protocol invariant |
| `AofRewriteSpec.PersistIncrKeeps` | redis-stable/src/aof.c:800-864 | persisting the manifest with the new, empty INCR keeps it |
| `AofRewriteSpec.SwitchKeeps` | redis-stable/src/aof.c:800-864 | switching the descriptor to the new INCR keeps it and allows the fork |
| `AofRewriteSpec.ForkKeeps` | redis-stable/src/aof.c:2534-2602 | the fork snapshot and the current INCR together cover the written commands |
| `AofRewriteSpec.RenameKeeps` | redis-stable/src/aof.c:2691-2767 | renaming the child's file to a base no manifest lists keeps it |
| `AofRewriteSpec.PersistBaseKeeps` | redis-stable/src/aof.c:2769-2790 | persisting the manifest with the new base keeps it |
| `AofRewriteSpec.BreakKeeps` | redis-stable/src/aof.c:2773-2785 | unlinking the base after a failed directory sync leaves a state whose manifest names a missing base |
| `AofRewriteSpec.UnlinkKeeps` | redis-stable/src/aof.c:678-702 | unlinking a file that no manifest lists as base or INCR keeps it |
| `AofRewriteSpec.RestartKeeps` | redis-stable/src/aof.c:723-778 | a crash and restart re-establishes the invariant, with the written commands as dataset if the disk was clean |
| `AofRewrite.Server.constructor` | redis-stable/src/aof.c:723-778 | the state after a first start: a fresh base, an INCR that keeps what a file of its name held, and a manifest listing both |
| `AofRewrite.Server.Restart` | redis-stable/src/aof.c:723-778 | a start from the files of a crashed process |
| `AofRewrite.Server.Feed` | redis-stable/src/aof.c:1405-1444 | a command joins the dataset and the buffer |
| `AofRewrite.Server.Flush` | redis-stable/src/aof.c:1143-1351 | the first commands of the buffer reach the current INCR |
| `AofRewrite.Server.OpenNewIncr` | redis-stable/src/aof.c:800-864 | truncate, persist, switch, with every failure exit, each moment recorded and valid |
| `AofRewrite.Server.StartRewrite` | redis-stable/src/aof.c:2534-2602 | the whole start of a rewrite, with every failure exit |
| `AofRewrite.Server.DeleteHistory` | redis-stable/src/aof.c:678-702 | history files go, listed ones stay, and the manifest is persisted again |
| `AofRewrite.Server.UnlinkHistory` | redis-stable/src/aof.c:678-702 | exactly the history files that can be removed are |
| `AofRewrite.Server.RewriteDone` | redis-stable/src/aof.c:2691-2851 | the whole end of a rewrite, with every failure exit |
| `AofRewrite.Server.Install` | redis-stable/src/aof.c:2691-2803 | rename, persist, adopt, or the undoing of it |
| `AofRecover.LoadInOrder` | redis-stable/src/aof.c:1792-1843 | the loop over base and INCR files: a file with a torn tail is refused unless it is the last and truncation is allowed, and then cut back |
| `AofRecover.LoadAppendOnlyFiles` | redis-stable/src/aof.c:1734-1857 | the dataset of a start, its status, and which files are left torn, for any set of torn files |
| `AofRecover.CrashRecoversIff` | redis-stable/src/aof.c:1811-1834 | a crash, in the middle of a write or not, loses nothing but the command being written exactly if the log is clean and a torn tail is in the last file listed and tolerated |
| `AofRecover.SecondStartRecovers` | redis-stable/src/aof.c:1691-1708 | a torn file that is not the last makes the first start fail and is cut back by it, so the second start recovers |
| `AofRuns.ActionKeeps` | redis-stable/src/aof.c:2534-2851 | every step, enabled by the place in the code alone, keeps the invariant of that place, and but for one failure path never truncates or unlinks a listed file |
| `AofRuns.RunKeeps` | redis-stable/src/aof.c:678-864 | the invariant of its place holds at every moment of every run from the first start on, crashes and restarts included |
| `AofRuns.PersistFirstKeeps` | redis-stable/src/aof.c:723-778 | the steps of a first start establish the invariant |
| `AofRuns.EveryMomentRecoversIff` | redis-stable/src/aof.c:1734-2851 | at every moment of every run a crash, torn write or not, is followed by a start with exactly the written commands if and only if the log is clean and the torn file is the last one listed and tolerated |
| `AofRuns.FaultlessRunRecovers` | redis-stable/src/aof.c:2534-2851 | if forced flushes empty the buffer, directory syncs after a listed change succeed and the first start finds no old INCR, every moment of every run recovers, also from a torn write |
| `AofRuns.ListedFilesOnlyGrow` | redis-stable/src/aof.c:678-702 | in every run the files the disk lists as base or INCR are only appended to, unless the listed base is undone |
| `AofCalls.StartedIsRun` | redis-stable/src/aof.c:2534-2602 | the call that starts a rewrite is a run of single steps, for every outcome |
| `AofCalls.CollectedIsRun` | redis-stable/src/aof.c:678-702 | the call that deletes history is a run of single steps, for every outcome |
| `AofCalls.FinishedIsRun` | redis-stable/src/aof.c:2691-2851 | the call that finishes a rewrite is a run of single steps, for every outcome |
| `AofCalls.StartedKeeps` | redis-stable/src/aof.c:2534-2602 | starting a rewrite keeps the invariant |
| `AofCalls.CollectedKeeps` | redis-stable/src/aof.c:678-702 | deleting history keeps the invariant |
| `AofCalls.FinishedKeeps` | redis-stable/src/aof.c:2691-2851 | finishing a rewrite keeps the invariant |
| `AofCalls.FreshRecoversIff` | redis-stable/src/aof.c:754-766 | a first start leaves a recoverable log exactly if no file of the first INCR's name holds commands |
| `AofCalls.StartRecoversIff` | redis-stable/src/aof.c:2534-2602 | after the start of a rewrite the log recovers exactly if it did before, or, when a new manifest was written, if the files of the manifest in memory hold what was written |
| `AofCalls.StartCrashRecoversIff` | redis-stable/src/aof.c:800-864 | a torn write after the start of a rewrite loses only its command exactly if truncation is allowed and the new manifest was synced, or the old one still has the current file last |
| `AofCalls.DirSyncFailureExposesTornWrites` | redis-stable/src/aof.c:580-596 | a concrete start: its directory sync fails, the log loads after a clean stop and not after a torn write |
| `AofCalls.DoneRecoversIff` | redis-stable/src/aof.c:2691-2851 | after the end of a rewrite the log recovers exactly if it did before, or, when a new manifest was written, if snapshot and current INCR make up what was written and the base is not unlinked |
| `AofCalls.ForkedAhead` | redis-stable/src/aof.c:2546-2550 | what the snapshot holds beyond the log is what the forced flush did not write |
| `AofCalls.RewriteRecoversIff` | redis-stable/src/aof.c:2534-2851 | a rewrite that ends well, whatever was fed and flushed meanwhile, leaves a recoverable log exactly if the forced flush at its start emptied the buffer |
| `AofCalls.ShortFlushRunsTwice` | redis-stable/src/aof.c:2546-2550 | a concrete rewrite: the forced flush fails, and a restart runs one command twice |
| `AofCalls.DirSyncFailureLosesTheBase` | redis-stable/src/aof.c:580-596 | a concrete run: the directory sync fails after the rename, the base is unlinked, and the log no longer loads |
| `AofText.CommandReads` | redis-stable/src/aof.c:1353-1376 | a written command is read back whole, whatever bytes its arguments hold and whatever follows it |
| `AofText.CutCommand` | redis-stable/src/aof.c:1570-1620 | a command cut at any byte reads as cut short, never as bad and never as another command |
| `AofText.HeaderLine` | redis-stable/src/aof.c:1570-1602 | a count or length line is read by one line read and gives its number |
| `AofText.SampleCommand` | redis-stable/src/aof.c:1353-1376 | the bytes of a concrete command |
| `AofText.AnnotationIsSkipped` | redis-stable/src/aof.c:1577 | a line that starts with a hash gives no command |
| `AofFeed.CatCommand` | redis-stable/src/aof.c:1353-1376 | the writing loop appends the text of the command |
| `AofFeed.SelectText` | redis-stable/src/aof.c:1421-1428 | the bytes of the SELECT for every database |
| `AofFeed.Feeder.constructor` | redis-stable/src/aof.c:1405-1444 | an empty buffer with no database selected |
| `AofFeed.Feeder.Feed` | redis-stable/src/aof.c:1405-1444 | the buffer grows by a SELECT exactly if the database changes, and the command; it is the text of all items fed since the file was opened |
| `AofFeed.Feeder.SwitchFile` | redis-stable/src/aof.c:2546-2553 | a new file starts with no database selected; a switch that fails goes on in the same file with none selected |
| `AofFeed.ItemsAgree` | redis-stable/src/aof.c:1405-1444 | whatever database the fake client starts in, it runs or queues each fed command in that command's own database |
| `AofFeed.FedFileLoads` | redis-stable/src/aof.c:1554-1716 | a fed file loads on its own to exactly the fed commands with their databases, open transactions left out, and loads plainly exactly if none is open |
| `AofFeed.PlainMeaning` | redis-stable/src/aof.c:1405-1444 | without transactions the loaded data is the fed sequence, item by item |
| `AofLoad.LoadSingle` | redis-stable/src/aof.c:1554-1716 | the loading loop with its offsets and exits returns what the recursive loader defines |
| `AofLoad.CutLoads` | redis-stable/src/aof.c:1554-1716 | a log cut at any byte runs the whole commands outside an unfinished transaction; status and length for every setting |
| `AofLoad.OpenSinceMulti` | redis-stable/src/aof.c:1633-1643 | in an open transaction nothing has run since the offset kept before its MULTI |
| `AofLoad.ReloadSame` | redis-stable/src/aof.c:1663-1716 | after the cut the file ends at a command boundary and loading it again gives the same data |
| `AofLoad.UnknownCommandFails` | redis-stable/src/aof.c:1622-1630 | a command the server does not know fails the load, whatever may be cut and whatever follows |
| `AofLoad.BadTextFails` | redis-stable/src/aof.c:1578 | text that is no command fails the load |
| `AofLoad.TransactionRuns` | redis-stable/src/aof.c:1633-1647 | commands between MULTI and EXEC run together at EXEC, in the selected database, and without EXEC not at all |
| `AofFlush.AofFile.constructor` | redis-stable/src/aof.c:756-774 | a file opened for appending, or a new one that is not, all of it counted as synced |
| `AofFlush.AofFile.Feed` | redis-stable/src/aof.c:1405-1444 | bytes join the buffer |
| `AofFlush.AofFile.Write` | redis-stable/src/aof.c:1105-1122 | short and interrupted writes are continued; the file grows by what was transferred, behind zero bytes if the descriptor stands past its end |
| `AofFlush.AofFile.TrySync` | redis-stable/src/aof.c:1319-1350 | exactly when the sync offset moves to the file size, the time of the last sync moves, and the server exits |
| `AofFlush.AofFile.Flush` | redis-stable/src/aof.c:1143-1351 | file and buffer together stay the bytes fed, and the recorded size the file's, exactly unless bytes are written behind a gap that a truncated short write left; when a flush is put off, and when what it wrote is synced |
| `AofFlush.AofFile.WriteOut` | redis-stable/src/aof.c:1205-1305 | the same from the write on, for every outcome of writes and truncation |
| `AofFlush.RunActions` | redis-stable/src/aof.c:1143-1351 | after every sequence of feeds and flushes file and buffer are the bytes fed, or the server exited under the always policy, or a descriptor that does not append left a gap |
| `AofFlush.PutOffOnce` | redis-stable/src/aof.c:1181-1202 | however long a sync runs, of two flushes two seconds apart one writes |
| `AofFlush.HoleAfterShortWrite` | redis-stable/src/aof.c:820 | a concrete run on a descriptor opened by a rewrite: a short write is truncated away and the next write leaves a zero byte in the log |
| `AclTable.ReadRuleText` | redis-stable/src/acl.c:1124-1201 | the stored text of a rule reads back as that rule |
| `AclTable.ReadKnown` | redis-stable/src/acl.c:1124-1201 | what is accepted is in the table, and its stored text is the lower-case text it was given as |
| `AclTable.BodyInjective` | redis-stable/src/acl.c:572-626 | different rules have different texts |
| `AclTable.LookupSub` | redis-stable/src/server.c:3287-3329 | a container and a subcommand joined by a bar are found |
| `AclRules.EffectAt` | redis-stable/src/acl.c:630-664 | a rule overwrites exactly its coordinates, command bits and first arguments, and leaves the others |
| `AclRules.EffectSane` | redis-stable/src/acl.c:558-567 | no rule touches the reserved bit, and only top-level commands get first arguments |
| `AclRules.Covers` | redis-stable/src/acl.c:572-613 | a rule that the new one removes wrote nothing that the new one does not write |
| `AclRules.KeptOutcome` | redis-stable/src/acl.c:572-613 | removing superseded rules does not change the outcome elsewhere |
| `AclRules.KeptIff` | redis-stable/src/acl.c:572-613 | compaction drops exactly the rules about the same thing or below the command of the new rule, and keeps all others |
| `AclRules.RuleKeeps` | redis-stable/src/acl.c:618-664 | applying a rule and compacting the list keeps the list an explanation of the permissions |
| `AclRules.RunExplained` | redis-stable/src/acl.c:755-808 | running a list from its start gives what the list explains |
| `AclRules.ReplayGivesSame` | redis-stable/src/acl.c:755-808 | a compacted list replays to the same bitmap and the same first arguments up to case |
| `AclRules.EveryRunReplays` | redis-stable/src/acl.c:755-808 | the same after every sequence of calls, refused ones included |
| `AclRules.EveryRunIsCompact` | redis-stable/src/acl.c:572-626 | after every sequence of calls no stored rule is made redundant by a newer one |
| `AclText.RemoveRule` | redis-stable/src/acl.c:572-613 | the in-place loop drops exactly the superseded words and leaves no stray blank |
| `AclText.SplitJoin` | redis-stable/src/acl.c:780-788 | the stored text splits into the stored words |
| `AclText.SplitJoinThen` | redis-stable/src/acl.c:780-788 | bare words and whatever follows them split into the words and what the rest splits into |
| `AclWords.AllOrNothing` | redis-stable/src/acl.c:1049-1062 | the words allcommands and +@all give every bit, nocommands and -@all none, and first arguments go |
| `AclWords.CommandWord` | redis-stable/src/acl.c:1124-1195 | +name and -name write the bits of the command and its subcommands, and drop its first arguments |
| `AclWords.SubcommandWord` | redis-stable/src/acl.c:1124-1195 | +name/sub and -name/sub write the bit of that subcommand |
| `AclWords.CategoryWord` | redis-stable/src/acl.c:1196-1201 | +@category and -@category write the bits of the flagged commands, of their subcommands, and of the flagged subcommands |
| `AclWords.FirstArgWord` | redis-stable/src/acl.c:1134-1187 | +name/arg adds the first argument unless it is there in some case, and touches nothing else |
| `AclWords.UnknownWord` | redis-stable/src/acl.c:1124-1201 | a sign with an unknown command or category is refused |
| `AclWords.DeniedArg` | redis-stable/src/acl.c:1188-1195 | -name/arg is refused unless the argument is a subcommand |
| `AclWords.NamesNothing` | redis-stable/src/acl.c:1157-1176 | +name/ with nothing behind it, or with what is no subcommand of a container, is refused |
| `AclSelector.Selector.constructor` | redis-stable/src/acl.c:345-362 | no command allowed, no rules |
| `AclSelector.Selector.SetCommandBit` | redis-stable/src/acl.c:558-567 | one bit is written, and clearing one drops the all-commands flag |
| `AclSelector.Selector.ChangePerm` | redis-stable/src/acl.c:630-643 | the command's bit and those of its subcommands are written, its first arguments dropped |
| `AclSelector.Selector.SetSubBitsForCategory` | redis-stable/src/acl.c:651-664 | the flagged subcommands of one container |
| `AclSelector.Selector.SetBitsForCategory` | redis-stable/src/acl.c:651-664 | exactly the bits and first arguments of the flagged commands, containers and subcommands |
| `AclSelector.Selector.SetEntryForCategory` | redis-stable/src/acl.c:651-664 | one dictionary entry with its own dictionary |
| `AclSelector.Selector.AddFirstArg` | redis-stable/src/acl.c:940-966 | a first argument is added unless it is there in some case |
| `AclSelector.Selector.UpdateRules` | redis-stable/src/acl.c:618-626 | the text becomes the text of the compacted list |
| `AclSelector.Selector.Apply` | redis-stable/src/acl.c:1124-1201 | the effect of an accepted rule, keeping the all-commands flag a safe shortcut |
| `AclSelector.Selector.SetRule` | redis-stable/src/acl.c:1124-1201 | effect and text together keep the selector replayable |
| `AclSelector.Selector.SetSelector` | redis-stable/src/acl.c:1049-1201 | the command branches: the four words for all and no commands set bits, first arguments, flag and text outright; other rules have the effect of their words; refused ones change nothing; text and permissions stay replayable |
| `AclSelector.Selector.Replay` | redis-stable/src/acl.c:785-788 | the replay loop runs the words in order and stops at the first error |
| `AclSelector.Selector.Describe` | redis-stable/src/acl.c:755-808 | for a replayable selector no assertion fails and the bitmap comparison never panics |
| `AclSelector.Selector.Recompute` | redis-stable/src/acl.c:669-702 | recomputing the bits from the rules in place gives the same permissions |
| `AclLimits.FirstArgReplaysIff` | redis-stable/src/acl.c:1135-1187 | on every selector whose text replays, setting a first-argument rule leaves a text that replays to the live permissions exactly if the argument holds no blank and no quote |
| `AclLimits.BlankIsLost` | redis-stable/src/acl.c:1135-1187 | a concrete rule that a new selector accepts and its text loses |
| `AclLimits.CommandIds.constructor` | redis-stable/src/acl.c:1529-1554 | no id given out |
| `AclLimits.CommandIds.GetCommandId` | redis-stable/src/acl.c:1529-1554 | ids are distinct and lasting, and the reserved bit is never given out |
| `BlockedIndex.OnceAtTheNode` | redis-stable/src/blocked.c:361-430 | a client has a key exactly if it stands once in the key's list, at the recorded node |
| `BlockedIndex.AddKeeps` | redis-stable/src/blocked.c:374-403 | joining a list keeps lists, dictionaries and counters in step |
| `BlockedIndex.ReleaseKeeps` | redis-stable/src/blocked.c:509-542 | leaving a list keeps them in step, with no empty list and no zero counter |
| `BlockedIndex.ReleaseCounts` | redis-stable/src/blocked.c:523-538 | the counter that the release decrements exists and is positive |
| `BlockedIndex.ReleaseOthers` | redis-stable/src/blocked.c:509-542 | the other waiters stay, in order |
| `BlockedIndex.AddedAllWaiting` | redis-stable/src/blocked.c:374-403 | a joining client comes last in each list it names, once |
| `Blocked.Blocking.constructor` | redis-stable/src/blocked.c:361-430 | nobody waits and no key is ready |
| `Blocked.Blocking.JoinLists` | redis-stable/src/blocked.c:374-403 | the loop over the keys, duplicates skipped |
| `Blocked.Blocking.BlockForKeys` | redis-stable/src/blocked.c:361-412 | blocking keeps the whole bookkeeping valid |
| `Blocked.Blocking.ReleaseBlockedEntry` | redis-stable/src/blocked.c:509-542 | one entry is released on both sides |
| `Blocked.Blocking.UnblockWaitingData` | redis-stable/src/blocked.c:416-430 | the client leaves every list, the others keep their order |
| `Blocked.Blocking.UnblockClient` | redis-stable/src/blocked.c:165-207 | afterwards the client waits for nothing and is counted under no type |
| `Blocked.Blocking.SignalKeyAsReady` | redis-stable/src/blocked.c:449-496 | a key is queued exactly if someone may be served by it and it is not queued yet |
| `Blocked.SignalReaches` | redis-stable/src/blocked.c:452-478 | a waiter of the type is enough: neither the type counters nor the index drop the signal |
| `Blocked.SignalsAre` | redis-stable/src/blocked.c:449-496 | every signal of a served command is queued if someone else waits for it |
| `Blocked.Blocking.Reprocess` | redis-stable/src/blocked.c:633-672 | the command of a served client may signal keys and block again; a key becomes ready exactly if a signal for it is heard in the state the signal finds |
| `Blocked.Blocking.UnblockClientOnKey` | redis-stable/src/blocked.c:633-672 | the client is in no list but those its command waits for now, and there it is last; its signals reach all others who wait for them |
| `Blocked.Blocking.Serve` | redis-stable/src/blocked.c:570-590 | a visited client is served exactly if the value suits it or it waits for the key to go |
| `Blocked.Blocking.HandleKey` | redis-stable/src/blocked.c:555-591 | a waiter leaves the list exactly if its visit found its type or it waits for the key to go; the others stay in order, behind them stand only served clients that blocked again, and a served client that does not block again waits for nothing |
| `Blocked.Blocking.VisitWaiters` | redis-stable/src/blocked.c:555-591 | the list iterator and the initial count visit every waiter of the start once, in blocking order |
| `Blocked.PassMeans` | redis-stable/src/blocked.c:571-586 | who is served in a pass and who is not, for every waiter |
| `Blocked.Blocking.DrainList` | redis-stable/src/blocked.c:322-349 | every key of the list swapped out gets one pass, in order |
| `BlockedServe.HandledServe` | redis-stable/src/blocked.c:579-585 | serving one more waiter disturbs neither those served before nor those who are not |
| `Blocked.Blocking.HandleClientsBlockedOnKeys` | redis-stable/src/blocked.c:308-352 | the drain is a chain of passes, each over those who wait for its key then, first for the keys ready at its start in their order; nothing else happens to the clients, and nothing is left ready |
| `Popcount.SwarCounts` | redis-stable/src/bitops.c:77-97 | the masked additions replace each byte of a word by the number of its ones |
| `Popcount.ByteSum` | redis-stable/src/bitops.c:91-97 | the multiplication sums the four bytes, at most 224, without a carry |
| `Popcount.SevenCounts` | redis-stable/src/bitops.c:63-98 | a step over seven words adds exactly the ones of its 28 bytes |
| `Popcount.CountQuads` | redis-stable/src/bitops.c:41-61 | the 32-byte loop |
| `Popcount.CountSevens` | redis-stable/src/bitops.c:63-99 | the 28-byte loop |
| `Popcount.RedisPopcount` | redis-stable/src/bitops.c:21-105 | for every length, address and processor the count is the number of ones |
| `BitCommands.Convert` | redis-stable/src/bitops.c:859-872 | indexes become byte numbers and edge masks, with every clipping of the source |
| `BitCommands.FromTheEnd` | redis-stable/src/bitops.c:859-872 | an index -k is the index length - k, in bytes or bits, and one below the string is 0 |
| `BitCommands.EdgesOff` | redis-stable/src/bitops.c:897-908 | whole bytes less the masked ends are the ones of the bit range |
| `BitCommands.CountSpan` | redis-stable/src/bitops.c:897-908 | the count with the two masked bytes taken off |
| `BitCommands.BitCount` | redis-stable/src/bitops.c:822-911 | the ones of the bits between the two indexes as given, negative ones counted from the end, or of the whole string, or 0 |
| `Bitpos.MaskTestsBit` | redis-stable/src/bitops.c:158-193 | step t of the walking mask tests bit t of the loaded bytes |
| `Bitpos.NoneInWindow` | redis-stable/src/bitops.c:180-198 | if no step finds the bit, there is none, so the final panic is unreachable |
| `Bitpos.LoadLast` | redis-stable/src/bitops.c:158-172 | up to eight bytes are loaded first byte on top, padded with zeros |
| `Bitpos.Skip` | redis-stable/src/bitops.c:131-157 | byte and word skipping pass no wanted bit and stop before the first |
| `Bitpos.RedisBitpos` | redis-stable/src/bitops.c:114-199 | the position of the first wanted bit, or the padded end for zeros, or -1 for ones |
| `BitCommands.ShownFirst` | redis-stable/src/bitops.c:1010-1018 | searching a masked byte searches exactly its unmasked bits |
| `BitCommands.SearchRest` | redis-stable/src/bitops.c:1024-1035 | whole bytes, then a masked last byte |
| `BitCommands.Search` | redis-stable/src/bitops.c:1006-1036 | masked first byte, whole bytes and masked last byte together search the range |
| `BitCommands.BitPos` | redis-stable/src/bitops.c:914-1052 | the least position between the two indexes as given with the bit wanted, -1, or the padded end |
| `BitfieldOverflow.WrapFits` | redis-stable/src/bitops.c:324-333 | the wrapped number fits and differs by a multiple of 2^bits |
| `BitfieldOverflow.UnsignedCheck` | redis-stable/src/bitops.c:301-334 | for a value in range the check finds exactly the sums that do not fit, and the limit asked for |
| `BitfieldOverflow.UnsignedSetCheck` | redis-stable/src/bitops.c:301-334 | the same for any 64-bit value of SET |
| `BitfieldOverflow.WrapWordIs` | redis-stable/src/bitops.c:372-390 | setting or clearing the upper bits makes the word the wrapped number |
| `BitfieldOverflow.SignedCheck` | redis-stable/src/bitops.c:336-391 | for a value in range, at every width up to 64, the check is exact |
| `BitfieldOverflow.SignedSetCheck` | redis-stable/src/bitops.c:336-391 | for any value of SET the check is exact, and the limit is right but far below the range |
| `BitfieldOverflow.SaturatingSetIff` | redis-stable/src/bitops.c:336-391 | saturating SET stores the nearest number exactly if the value is not far below the range |
| `BitfieldOverflow.LeastSaturatesUp` | redis-stable/src/bitops.c:336-391 | a concrete value: the least 64-bit integer saturates to 127 in eight bits |
| `Bitfield.WriteWrote` | redis-stable/src/bitops.c:222-236 | a write stores the low bits of the value in the field and changes no other bit |
| `Bitfield.FieldSplit` | redis-stable/src/bitops.c:243-255 | two fields side by side are one field, the first on top |
| `Bitfield.FieldOfByte` | redis-stable/src/bitops.c:243-255 | an aligned field of eight bits is the byte as a number |
| `Bitfield.Bitmap.constructor` | redis-stable/src/bitops.c:222-276 | a string of bytes |
| `Bitfield.Bitmap.SetUnsigned` | redis-stable/src/bitops.c:222-236 | the loop writes the field |
| `Bitfield.Bitmap.GetUnsigned` | redis-stable/src/bitops.c:243-255 | the loop reads the field |
| `Bitfield.Bitmap.GetSigned` | redis-stable/src/bitops.c:257-276 | the field as a two's complement number, at every width up to 64 |
| `Bitfield.Bitmap.Sum` | redis-stable/src/bitops.c:1207-1246 | INCRBY settles the exact sum: itself, wrapped, clamped, or none |
| `Bitfield.Bitmap.NewValue` | redis-stable/src/bitops.c:1212-1253 | SET settles its value in the same way |
| `Bitfield.Bitmap.Read` | redis-stable/src/bitops.c:1204-1239 | the value before a write |
| `Bitfield.Bitmap.Get` | redis-stable/src/bitops.c:1268-1300 | GET through the nine-byte buffer reads the field with zeros beyond the end of the string |
| `Bitfield.BufferField` | redis-stable/src/bitops.c:1279-1290 | the copied bytes hold every bit of the field |
| `Bitfield.Bitmap.Execute` | redis-stable/src/bitops.c:1186-1301 | GET and SET reply what was in the field, INCRBY what is in it then; the field holds the number asked for if it fits, else what the policy says; a refused operation changes nothing; no other bit changes |
| `Bitfield.OperationMeans` | redis-stable/src/bitops.c:1186-1301 | the same of the specification of every operation |
| `Bitfield.Bitmap.RunAll` | redis-stable/src/bitops.c:1160-1301 | the string grows to hold every bit written and no further, and each operation runs on what the one before left |
| `Bitfield.RoomSame` | redis-stable/src/bitops.c:497-517 | making room changes no bit |
| `Bitfield.StoredIsRead` | redis-stable/src/bitops.c:1200-1266 | what an operation stores fits, is what a later GET reads, and no other bit changes |
| `Bio.StepKeeps` | redis-stable/src/bio.c:181-189 | every step of every thread keeps queue, counters, history and mutex in step |
| `Bio.RunKeeps` | redis-stable/src/bio.c:257-390 | the invariant holds for all three workers at every moment of every interleaving |
| `Bio.FinishInOrder` | redis-stable/src/bio.c:257-368 | each worker finishes jobs in submission order |
| `Bio.CounterIsExact` | redis-stable/src/bio.c:371-379 | what is read under the mutex is the number of queued or running jobs of the type, all of them with that worker |
| `Bio.DrainIsComplete` | redis-stable/src/bio.c:382-390 | when the drain returns, every job submitted to the worker before the call has run |
| `Bio.RequestRunsAfterJobs` | redis-stable/src/bio.c:59-67 | a completion request is with the worker of its jobs, and runs after every job of its kind submitted before it |
| `Bio.WorkerMayProceed` | redis-stable/src/bio.c:359-367 | when a worker comes back its node is still first in the queue and its counter positive |
| `Migrate.AckedMeans` | redis-stable/src/cluster.c:582-634 | a key is acknowledged exactly if everything was written, AUTH and SELECT were answered positively where sent, and one of its RESTOREs was, all replies before it read |
| `Migrate.ErrorMeans` | redis-stable/src/cluster.c:600-617 | a reply counts as an error of the target exactly if AUTH or SELECT was refused or it is one itself |
| `Migrate.LiveMeans` | redis-stable/src/cluster.c:506-528 | the keys sent are exactly those given that have not expired |
| `Migrate.Keyspace.constructor` | redis-stable/src/cluster.c:456-466 | the keys here |
| `Migrate.Keyspace.FindKeys` | redis-stable/src/cluster.c:456-466 | the keys that exist, in the order given |
| `Migrate.Keyspace.Compact` | redis-stable/src/cluster.c:506-528 | keys found expired are squeezed out, the order kept |
| `Migrate.Keyspace.ReadReplies` | redis-stable/src/cluster.c:590-636 | the reply loop deletes exactly the acknowledged keys and notes errors and socket failures |
| `Migrate.Keyspace.Try` | redis-stable/src/cluster.c:473-690 | one attempt: its effect, and exactly when it may be repeated |
| `Migrate.Keyspace.Run` | redis-stable/src/cluster.c:473-722 | which keys are sent; which leave, exactly, in terms of the replies; what is propagated; each answer; and exactly when there is a second attempt |
| `Migrate.Keyspace.Transfer` | redis-stable/src/cluster.c:456-720 | the attempts, with their effects by what the target acknowledged |
| `Slots.KeyHashSlot` | redis-stable/src/cluster.h:43-62 | the slot of what stands between the first opening brace and the first closing one after it, if that is not empty, or else of the whole key |
| `Slots.TagIsHashed` | redis-stable/src/cluster.h:43-62 | a tag written out is the hashed part |
| `Slots.LiteralStart` | redis-stable/src/util.c:65-200 | a matching key starts with the literal start of the pattern |
| `Slots.LiteralWhole` | redis-stable/src/util.c:65-200 | a pattern without special characters matches only itself |
| `Slots.DecidedHashed` | redis-stable/src/cluster.c:30-55 | keys matching a pattern that is literal far enough have the hashed part of the pattern |
| `Slots.PatternHashSlot` | redis-stable/src/cluster.c:30-55 | a slot exactly if no special character stands before the end of the tag, or anywhere without one; it is the slot of the tag or the pattern, and of every matching key |
| `Slots.LiteralDecides` | redis-stable/src/cluster.c:30-55 | a literal pattern is decided and is itself a matching key |
| `GlobSearch.MatchesIsPlain` | redis-stable/src/util.c:65-200 | for every pattern the search that stops early finds exactly what the full search finds, except that a pattern of more than 1000 nested star runs matches nothing |
| `GlobSearch.SearchIsRight` | redis-stable/src/util.c:73-103 | the flag that stops longer matches is raised only for a pattern that matches nowhere in the rest of the string |
| `GlobSearch.TooDeep` | redis-stable/src/util.c:68-69 | a pattern that nests beyond the limit matches nothing, since a match goes through every run of stars |
| `GlobSearch.DeepPatternIsRefused` | redis-stable/src/util.c:68-69 | a concrete pattern and key that should match and do not |
| `GlobSearch.RangeClass` | redis-stable/src/util.c:130-160 | [a-b] matches the characters from one end to the other in either order, and [^a-b] all others |
| `GlobSearch.ListClass` | redis-stable/src/util.c:105-175 | [abc] matches exactly the characters listed, and [^abc] all others |
| `GlobSearch.AnyAndEscaped` | redis-stable/src/util.c:101-190 | ? matches every character, and a backslash takes the meaning of the next one away |

## Left out

- AofRewrite.Server: models the log while it is on; the branches for a log that is off or waits for its first rewrite, and the temporary INCR file of those branches, are not modelled.
- AofRewrite.Server.constructor: starts with base, INCR and manifest in place; the single steps of a first start, and crashes between them, are in `AofRuns`.
- AofRewrite.Server.Flush: moves whole commands, and so do the runs; a command, or a transaction as one, that is cut by a crash is in `AofRecover`, bytes and short writes are in `AofFlush`. A short write that ends inside a command and cannot be undone is like such a cut until the rest is written; a rewrite started in between is not modelled, nor is durability against power loss.
- AofManifest.RoundTrip: for lines shorter than the reader's buffer and entries that `Storable` describes; `AofManifestOps.ParsesBackIff` shows the others are not read back.
- AofManifestRuns.EveryRunLoadsIff: for configured names of at most 900 printed characters and numbers of the C type; the end offset written at shutdown and the deletion of history are not among the mutators.
- AofLoad.LoadSingle: leaves out the RDB preamble, the empty and missing file, read errors other than the end of the file, and C integer overflow in the counts of a foreign file; a negative length, on which the process aborts, is a failed load; lookup of commands is a predicate.
- AofFeed.FedFileLoads: timestamp annotations are skipped by the loader but not written by the feeder.
- AofFlush.AofFile.Flush: says nothing about further flushes once zero bytes are in the file; replication offsets and the background sync itself are not modelled.
- AclSelector.Selector.SetSelector: rules about keys, channels and selectors are passed over; names and rules are free of NUL characters.
- AclRules.EffectAt: the bitmap is a set of bit numbers, not an array of words, and every command id is below the reserved bit.
- Blocked.Blocking.Reprocess: the command of a served client can signal keys and block its own client again; commands that unblock other clients are not modelled, nor are modules, timeouts and waits for other things than keys.
- Blocked.Blocking.HandleClientsBlockedOnKeys: the effects of served commands are a finite supply, after which commands have none, so that the drain ends.
- Popcount.RedisPopcount: the byte table and the processor's instruction are replaced by the count they stand for.
- Bitpos.RedisBitpos: words are 64 bits and loaded in little-endian order.
- Bitfield.Bitmap.RunAll: parsing, limits on offsets, replies other than values and nulls, and the count of changes are not modelled.
- Bio.StepKeeps: what a job does, and the pipe that reports completion, are not modelled; a job is an identity and a type.
- Migrate.Keyspace.Run: argument parsing, the payload, the cache of sockets and the remembered database are not modelled; expiry is a predicate on keys for each attempt.
- Slots.PatternHashSlot: crc16 is a parameter; the matcher is case sensitive, and its loop is a recursive function.
- The 16-bit checksum functions and the benchmark of crc64.c.
- The rewriting of values into commands, hash, stream and sorted-set encodings, RDB files.
- ACL passwords, users, key and channel patterns, and loading of ACL files.
- The TypeScript, web and plugin files of the repository.
