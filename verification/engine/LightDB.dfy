/** The string commands of the storage engine over rolling log files, an index
    of places in them, and a cache in front of the reads. */
module StringEngine {
  import opened Coding
  import opened Entries
  import opened DBFiles
  import opened Logs
  import opened Indexers
  import opened StringLog
  import opened TornTails

  datatype IndexMode = KeyValueMem | KeyOnlyMem

  datatype Status = Ok | EmptyKey | KeyTooLarge | ValueTooLarge | ReadFailed(r: ReadResult)

  /** The index as the running engine keeps it: values only where they are kept in memory. */
  ghost predicate Matches(ix: map<Bytes, Indexer>, full: map<Bytes, Indexer>, mode: IndexMode) {
    ix.Keys == full.Keys && forall k {:trigger ix[k]} {:trigger full[k]} :: k in full ==>
      ix[k].fileId == full[k].fileId && ix[k].offset == full[k].offset
          && (mode.KeyValueMem? ==> ix[k].value == full[k].value)
  }

  /** A cached value is the logged one, for a key the index has. */
  ghost predicate Fresh(cache: map<Bytes, Bytes>, full: map<Bytes, Indexer>) {
    forall k {:trigger cache[k]} :: k in cache && k in full ==> cache[k] == full[k].value
  }

  /** File `i` has id `i` and the bytes of log `i`. */
  ghost predicate FilesHold(files: seq<DBFile>, logs: seq<seq<Entry>>)
    reads files`data, files`WriteOffset
  {
    |files| == |logs| > 0 && forall i {:trigger files[i]} :: 0 <= i < |files| ==> FileHolds(files[i], i, logs[i])
  }

  ghost predicate FileHolds(f: DBFile, i: nat, es: seq<Entry>)
    reads f`data, f`WriteOffset
  {
    f.Id == i && AllFit(es) && f.data == File(es) && f.WriteOffset == |f.data|
  }

  /** The same, but for what is left of a cut record at the end of the last file. */
  ghost predicate FilesServe(files: seq<DBFile>, logs: seq<seq<Entry>>, torn: Bytes)
    reads files`data, files`WriteOffset
  {
    |files| == |logs| > 0 && forall i {:trigger files[i]} :: 0 <= i < |files| ==>
      FileServes(files[i], i, logs[i], if i == |files| - 1 then torn else [])
  }

  ghost predicate FileServes(f: DBFile, i: nat, es: seq<Entry>, tail: Bytes)
    reads f`data, f`WriteOffset
  {
    f.Id == i && AllFit(es) && f.data == File(es) + tail && f.WriteOffset == |f.data|
  }

  lemma HoldingServes(files: seq<DBFile>, logs: seq<seq<Entry>>)
    ensures FilesHold(files, logs) <==> FilesServe(files, logs, [])
  {
    if FilesHold(files, logs) {
      forall i {:trigger files[i]} | 0 <= i < |files| ensures FileServes(files[i], i, logs[i], []) {
        assert FileHolds(files[i], i, logs[i]) && File(logs[i]) + [] == File(logs[i]);
      }
    }
    if FilesServe(files, logs, []) {
      forall i {:trigger files[i]} | 0 <= i < |files| ensures FileHolds(files[i], i, logs[i]) {
        assert FileServes(files[i], i, logs[i], []) && File(logs[i]) + [] == File(logs[i]);
      }
    }
  }

  /** Only sets and removals, under keys that are not empty. */
  predicate Strings(es: seq<Entry>) {
    forall k {:trigger es[k]} :: 0 <= k < |es| ==> (IsSet(es[k]) || IsRem(es[k])) && es[k].key != []
  }

  predicate AllStrings(logs: seq<seq<Entry>>) { forall i {:trigger logs[i]} :: 0 <= i < |logs| ==> Strings(logs[i]) }

  predicate Archives(archived: map<nat, DBFile>, files: seq<DBFile>)
    requires files != []
  {
    && (forall i: nat {:trigger files[i]} :: 0 <= i < |files| - 1 ==> i in archived && archived[i] == files[i])
    && (forall id :: id in archived ==> id < |files| - 1)
  }

  /** A record the index points at can be read back where it points, whatever stands behind the records. */
  lemma ReadPointed(logs: seq<seq<Entry>>, key: Bytes, tail: Bytes)
    requires key in Replay(All(logs)) && (forall i {:trigger logs[i]} :: 0 <= i < |logs| ==> AllFit(logs[i]))
    ensures var p := Replay(All(logs))[key];
            && p.fileId < |logs|
            && ReadAt(File(logs[p.fileId]) + tail, p.offset).Record?
            && ReadAt(File(logs[p.fileId]) + tail, p.offset).entry.value == p.value
  {
    var ls := All(logs);
    IndexIsLastSet(ls, key);
    var i := LastAbout(ls, key);
    RecordsPlaced(logs, |logs|, i);
    var l := ls[i];
    var es := logs[l.fileId];
    var k :| 0 <= k < |es| && es[k] == l.entry && Start(es, k) == l.offset;
    ReadRecord(es, k, tail);
  }

  lemma ReadRecord(es: seq<Entry>, k: nat, tail: Bytes)
    requires AllFit(es) && k < |es|
    ensures ReadAt(File(es) + tail, Start(es, k)) == Record(es[k], Length(es[k]))
  {
    hide ReadAt;
    StartGrows(es, k + 1, |es|);
    assert (File(es) + tail)[..|File(es)|] == File(es)[..|File(es)|];
    WholeReads(File(es) + tail, es, |File(es)|, k);
  }

  class LightDB {
    const blockSize: nat
    const indexMode: IndexMode
    const maxKeySize: nat
    const maxValueSize: nat
    var activeFile: DBFile
    var archivedFiles: map<nat, DBFile>
    var strIdx: map<Bytes, Indexer>
    var cache: map<Bytes, Bytes>
    ghost var files: seq<DBFile>
    ghost var logs: seq<seq<Entry>>
    ghost const torn: Bytes            // left of a cut record behind the last file's records

    /** A record of the largest key and value has a length of 32 bits. */
    predicate Config() { ENTRY_HEADER_SIZE + maxKeySize + maxValueSize < TWO_32 }

    ghost predicate Disk()
      reads `activeFile, `archivedFiles, `files, `logs, files`data, files`WriteOffset
    {
      && FilesHold(files, logs) && AllStrings(logs) && Rolled(logs, blockSize)
      && activeFile == files[|files| - 1] && Archives(archivedFiles, files) && torn == []
    }

    /** What reads need: nothing has been stored behind a torn tail. */
    ghost predicate Serving()
      reads this, files`data, files`WriteOffset
    {
      && Config() && FilesServe(files, logs, torn)
      && activeFile == files[|files| - 1] && Archives(archivedFiles, files)
      && Matches(strIdx, Full(), indexMode) && (indexMode.KeyOnlyMem? ==> Fresh(cache, Full()))
    }

    ghost predicate Valid()
      reads this, files`data, files`WriteOffset
    {
      && Config() && Disk() && Matches(strIdx, Full(), indexMode)
      && (indexMode.KeyOnlyMem? ==> Fresh(cache, Full()))
    }

    /** The index with every value. */
    ghost function Full(): map<Bytes, Indexer>
      reads `logs
    {
      Replay(All(logs))
    }

    /** The map the log stands for. */
    ghost function Model(): map<Bytes, Bytes>
      reads `logs
    {
      Values(Full())
    }

    function CheckKeyValue(key: Bytes, value: Bytes): Status {
      if |key| == 0 then EmptyKey
      else if |key| > maxKeySize then KeyTooLarge
      else if |value| > maxValueSize then ValueTooLarge
      else Ok
    }

    /** Open, on the files a database left, the last one cut anywhere: the highest id is the
        active file, and replay rebuilds the index of the records wholly inside. */
    constructor Open(blockSize: nat, indexMode: IndexMode, maxKeySize: nat, maxValueSize: nat,
                     disk: seq<Bytes>, ghost written: seq<seq<Entry>>)
      requires ENTRY_HEADER_SIZE + maxKeySize + maxValueSize < TWO_32
      requires |written| == |disk| && AllStrings(written) && Rolled(written, blockSize)
      requires forall i {:trigger written[i]} :: 0 <= i < |disk| ==>
                 CutOf(disk[i], written[i]) && (i < |disk| - 1 ==> disk[i] == File(written[i]))
      ensures this.blockSize == blockSize && this.indexMode == indexMode
      ensures this.maxKeySize == maxKeySize && this.maxValueSize == maxValueSize
      ensures logs == Survivors(disk, written) && torn == Remains(disk, written)
      ensures strIdx == Replay(Reload(logs, blockSize)) && cache == map[]
      ensures NoneAtEdge(logs, blockSize) ==> Serving()
      ensures torn == [] ==> Config() && Disk() && (NoneAtEdge(logs, blockSize) ==> Valid())
      ensures forall f :: f in files ==> fresh(f)
    {
      hide *;
      this.blockSize, this.indexMode, this.maxKeySize, this.maxValueSize :=
          blockSize, indexMode, maxKeySize, maxValueSize;
      logs, torn := Survivors(disk, written), Remains(disk, written);
      strIdx, cache := map[], map[];
      var fs := OpenFiles(if disk == [] then [[]] else disk);
      files := fs;
      activeFile := fs[|fs| - 1];
      archivedFiles := map i: nat | 0 <= i < |fs| - 1 :: fs[i];
      new;
      forall i | 0 <= i < |files| ensures fresh(files[i]) {
        assert files[i] in fs;
      }
      OpenedIs(if disk == [] then [[]] else disk);
      Boot(written, disk);
      Rebuilt();
    }

    lemma OpenedIs(disk: seq<Bytes>)
      requires |files| == |disk| > 0 && forall i {:trigger files[i]} :: 0 <= i < |files| ==>
                 files[i].Id == i && files[i].data == disk[i] && files[i].WriteOffset == |disk[i]|
      ensures OpenedAs(disk)
    {
    }

    /** The open files are the disk's; the index follows from them. */
    method Boot(ghost written: seq<seq<Entry>>, ghost disk: seq<Bytes>)
      requires ENTRY_HEADER_SIZE + maxKeySize + maxValueSize < TWO_32 && strIdx == map[] && cache == map[]
      requires |written| == |disk| && AllStrings(written) && Rolled(written, blockSize)
      requires forall i {:trigger written[i]} :: 0 <= i < |disk| ==>
                 CutOf(disk[i], written[i]) && (i < |disk| - 1 ==> disk[i] == File(written[i]))
      requires logs == Survivors(disk, written) && torn == Remains(disk, written)
      requires files != [] && OpenedAs(if disk == [] then [[]] else disk)
      requires activeFile == files[|files| - 1] && archivedFiles == map i: nat | 0 <= i < |files| - 1 :: files[i]
      modifies `strIdx, files`Offset
      ensures Config() && FilesServe(files, logs, torn) && AllStrings(logs) && Rolled(logs, blockSize)
      ensures activeFile == files[|files| - 1] && Archives(archivedFiles, files)
      ensures strIdx == Replay(Reload(logs, blockSize))
    {
      hide *;
      OpenedServe(written, disk);
      Archived();
      Configured();
      ghost var ws := if written == [] then [[]] else written;
      OpenedCut(written, disk);
      LoadIdx(ws);
    }

    /** One file for each on the disk. */
    ghost predicate OpenedAs(disk: seq<Bytes>)
      reads this, files`data, files`WriteOffset
    {
      |files| == |disk| > 0 && forall i {:trigger files[i]} :: 0 <= i < |files| ==>
        files[i].Id == i && files[i].data == disk[i] && files[i].WriteOffset == |disk[i]|
    }

    lemma Configured()
      requires ENTRY_HEADER_SIZE + maxKeySize + maxValueSize < TWO_32
      ensures Config()
    {
    }

    lemma Archived()
      requires files != [] && archivedFiles == map i: nat | 0 <= i < |files| - 1 :: files[i]
      ensures Archives(archivedFiles, files)
    {
    }

    lemma OpenedServe(written: seq<seq<Entry>>, disk: seq<Bytes>)
      requires |written| == |disk| && AllStrings(written) && Rolled(written, blockSize)
      requires forall i {:trigger written[i]} :: 0 <= i < |disk| ==>
                 CutOf(disk[i], written[i]) && (i < |disk| - 1 ==> disk[i] == File(written[i]))
      requires logs == Survivors(disk, written) && torn == Remains(disk, written)
      requires OpenedAs(if disk == [] then [[]] else disk)
      ensures FilesServe(files, logs, torn) && AllStrings(logs) && Rolled(logs, blockSize)
    {
      hide Inside, File;
      forall i {:trigger files[i]} | 0 <= i < |files|
        ensures FileServes(files[i], i, logs[i], if i == |files| - 1 then torn else [])
      {
        if disk != [] { SplitsCut(disk[i], written[i]); }
      }
      forall i, k {:trigger StartsBy(logs, i, k, blockSize)} | 0 <= i < |logs| && 0 <= k < |logs[i]|
        ensures StartsBy(logs, i, k, blockSize)
      {
        assert StartsBy(written, i, k, blockSize) && logs[i][..k] == written[i][..k];
        StartPrefix(logs[i], written[i], k);
      }
    }

    lemma OpenedCut(written: seq<seq<Entry>>, disk: seq<Bytes>)
      requires |written| == |disk| && AllStrings(written)
      requires forall i {:trigger written[i]} :: 0 <= i < |disk| ==> CutOf(disk[i], written[i])
      requires logs == Survivors(disk, written) && OpenedAs(if disk == [] then [[]] else disk)
      ensures var ws := if written == [] then [[]] else written;
              |ws| == |files| == |logs| && forall i {:trigger ws[i]} :: 0 <= i < |ws| ==> LoadedFrom(ws[i], i)
    {
      hide Inside, File;
      if written == [] {
        assert File([]) == [] && Inside([], 0) == 0;
      } else {
        forall i {:trigger written[i]} | 0 <= i < |written| ensures LoadedFrom(written[i], i) {
          assert files[i].data == disk[i] && Strings(written[i]);
        }
      }
    }

    /** File `i` is a cut of the file of `es`, of which log `i` has the whole records. */
    ghost predicate LoadedFrom(es: seq<Entry>, i: nat)
      requires i < |files| == |logs|
      reads `files, `logs, files`data
    {
      Keyed(es) && CutOf(files[i].data, es) && logs[i] == es[..Inside(es, |files[i].data|)]
    }

    lemma Rebuilt()
      requires Config() && FilesServe(files, logs, torn) && AllStrings(logs) && Rolled(logs, blockSize)
      requires activeFile == files[|files| - 1] && Archives(archivedFiles, files)
      requires cache == map[] && strIdx == Replay(Reload(logs, blockSize))
      ensures NoneAtEdge(logs, blockSize) ==> Serving()
      ensures torn == [] ==> Disk() && (NoneAtEdge(logs, blockSize) ==> Valid())
    {
      hide *;
      HoldingServes(files, logs);
      if NoneAtEdge(logs, blockSize) {
        ReopenRebuilds(logs, blockSize);
        NothingCached();
        ServingWhole();
      }
      if torn == [] {
        assert FilesHold(files, logs);
        LastId();
        DiskWhole();
        if NoneAtEdge(logs, blockSize) { ValidWhole(); }
      }
    }

    lemma NothingCached()
      requires cache == map[] && strIdx == Replay(All(logs))
      ensures Matches(strIdx, Full(), indexMode) && Fresh(cache, Full())
    {
    }

    /** loadIdxFromFiles, for the string type. */
    method LoadIdx(ghost written: seq<seq<Entry>>)
      requires FilesServe(files, logs, torn) && activeFile == files[|files| - 1] && Archives(archivedFiles, files)
      requires |written| == |files| && forall i {:trigger written[i]} :: 0 <= i < |written| ==>
               LoadedFrom(written[i], i)
      requires strIdx == map[]
      modifies `strIdx, files`Offset
      ensures strIdx == Replay(Reload(logs, blockSize))
    {
      hide *;
      ReloadEnds(logs, blockSize);
      LastId();
      var i := 0;
      while i <= activeFile.Id
        invariant 0 <= i <= |files| == activeFile.Id + 1 && strIdx == Replay(Reloaded(logs, blockSize, i))
        invariant forall i {:trigger written[i]} :: 0 <= i < |written| ==> LoadedFrom(written[i], i)
      {
        FileOfId(i);
        var df := if i in archivedFiles then archivedFiles[i] else activeFile;
        CutParts(written[i], i);
        LoadOne(df, i, written[i], Reloaded(logs, blockSize, i));
        CutReloads(written[i], |df.data|, i, blockSize);
        ReloadNext(logs, blockSize, i);
        i := i + 1;
      }
    }

    lemma LastId()
      requires FilesServe(files, logs, torn) && activeFile == files[|files| - 1]
      ensures |files| == |logs| > 0 && activeFile.Id == |files| - 1
    {
    }

    lemma FileOfId(i: nat)
      requires FilesServe(files, logs, torn) && activeFile == files[|files| - 1] && Archives(archivedFiles, files)
               && i < |files|
      ensures (if i in archivedFiles then archivedFiles[i] else activeFile) == files[i]
      ensures files[i].Id == i && i < |logs| && AllFit(logs[i])
    {
      hide File;
      assert FileServes(files[i], i, logs[i], if i == |files| - 1 then torn else []);
    }

    lemma CutParts(es: seq<Entry>, i: nat)
      requires i < |files| == |logs| && LoadedFrom(es, i)
      ensures Keyed(es) && AllFit(es) && CutOf(files[i].data, es) && logs[i] == es[..Inside(es, |files[i].data|)]
    {
    }

    method LoadOne(df: DBFile, i: nat, ghost es: seq<Entry>, ghost before: seq<Located>)
      requires df.Id == i && Keyed(es) && CutOf(df.data, es) && strIdx == Replay(before)
      modifies `strIdx, df`Offset
      ensures strIdx == Replay(before + FileRecords(es, i, Reached(es, |df.data|, blockSize)))
    {
      hide *;
      CutIs(df.data, es);
      var _, applied := LoadFile(df, blockSize, es);
      NoRecords(es, i, before);
      var k := 0;
      while k < |applied|
        invariant k <= |applied| && strIdx == Replay(before + FileRecords(es, i, k))
      {
        NextRecord(es, i, k, before);
        strIdx := BuildIndex(strIdx, Located(applied[k].entry, df.Id, applied[k].offset));
        k := k + 1;
      }
    }

    lemma DiskParts()
      requires Disk()
      ensures FilesHold(files, logs) && AllStrings(logs) && Rolled(logs, blockSize)
      ensures |files| == |logs| > 0 && activeFile == files[|files| - 1] && Archives(archivedFiles, files)
      ensures var last := logs[|logs| - 1];
              activeFile.Id == |files| - 1 && activeFile.WriteOffset == Start(last, |last|) && activeFile.Valid()
      ensures torn == [] && FilesServe(files, logs, torn)
    {
      HoldingServes(files, logs);
      assert FileHolds(files[|files| - 1], |files| - 1, logs[|files| - 1]);
    }

    lemma DiskWhole()
      requires FilesHold(files, logs) && AllStrings(logs) && Rolled(logs, blockSize) && files != []
      requires activeFile == files[|files| - 1] && Archives(archivedFiles, files) && torn == []
      ensures Disk()
    {
    }

    /** store. */
    method Store(e: Entry)
      requires Disk() && Entries.Fits(e) && (IsSet(e) || IsRem(e)) && e.key != []
      modifies `activeFile, `archivedFiles, `files, `logs, files`data, files`WriteOffset
      ensures Disk() && logs == Stored(old(logs), e, blockSize)
      ensures old(logs) != [] && if old(activeFile.WriteOffset) > blockSize
              then fresh(activeFile) && activeFile.Id == old(activeFile).Id + 1 && logs == old(logs) + [[e]]
              else activeFile == old(activeFile)
                   && logs == old(logs)[|old(logs)| - 1 := old(logs)[|old(logs)| - 1] + [e]]
      ensures activeFile.Id == StoredAt(old(logs), e, blockSize).fileId
      ensures activeFile.WriteOffset == StoredAt(old(logs), e, blockSize).offset + Length(e)
      ensures forall f :: f in files ==> f in old(files) || fresh(f)
    {
      hide *;
      DiskParts();
      StoredOnRolled(logs, e, blockSize);
      Roll();
      DiskParts();
      assert activeFile in files;
      StartSnoc(logs[|logs| - 1], e);
      AppendActive(e);
      ghost var none: seq<Entry> := [];
      assert none + [e] == [e] && (old(logs) + [none])[|old(logs)| := [e]] == old(logs) + [[e]];
      DiskParts();
    }

    /** The active file is archived once it is longer than the block size. */
    method Roll()
      requires Disk()
      modifies `activeFile, `archivedFiles, `files, `logs
      ensures Disk() && old(logs) != [] && logs == RolledOver(old(logs), blockSize)
      ensures if old(activeFile.WriteOffset) > blockSize
              then fresh(activeFile) && activeFile.Id == old(activeFile).Id + 1 && logs == old(logs) + [[]]
              else activeFile == old(activeFile) && logs == old(logs)
      ensures forall f :: f in files ==> f in old(files) || fresh(f)
    {
      hide *;
      DiskParts();
      RolledOverIs(logs, blockSize);
      if activeFile.WriteOffset > blockSize {
        var newActiveFile := new DBFile(activeFile.Id + 1, []);
        NewFile(files, logs, newActiveFile);
        NewArchive(files, archivedFiles, newActiveFile);
        archivedFiles := archivedFiles[activeFile.Id := activeFile];
        activeFile := newActiveFile;
        files := files + [newActiveFile];
        logs := logs + [[]];
        DiskWhole();
      }
    }

    /** The record goes to the end of the active file. */
    method AppendActive(e: Entry)
      requires Disk() && Entries.Fits(e) && (IsSet(e) || IsRem(e)) && e.key != []
      requires |logs| > 0 && (var last := logs[|logs| - 1]; Start(last, |last|) <= blockSize)
      modifies `logs, activeFile`data, activeFile`WriteOffset
      ensures Disk() && logs == old(logs)[|old(logs)| - 1 := old(logs)[|old(logs)| - 1] + [e]]
    {
      hide *;
      DiskParts();
      AppendedStrings(logs, e, blockSize);
      WriteActive(activeFile, files, logs, e);
      logs := logs[|logs| - 1 := logs[|logs| - 1] + [e]];
      DiskWhole();
    }

    /** The bytes of all files, by id. */
    method Image() returns (disk: seq<Bytes>)
      requires Disk()
      ensures |disk| == |logs| && forall i {:trigger logs[i]} :: 0 <= i < |disk| ==>
              AllFit(logs[i]) && disk[i] == File(logs[i])
    {
      hide *;
      DiskParts();
      disk := [];
      while |disk| <= activeFile.Id
        invariant |disk| <= |logs| == |files| == activeFile.Id + 1
        invariant forall i {:trigger logs[i]} :: 0 <= i < |disk| ==> AllFit(logs[i]) && disk[i] == File(logs[i])
      {
        FileOfId(|disk|);
        FileBytes(|disk|);
        var df := if |disk| in archivedFiles then archivedFiles[|disk|] else activeFile;
        disk := disk + [df.data];
      }
    }

    lemma FileBytes(i: nat)
      requires Disk() && i < |files|
      ensures i < |logs| && AllFit(logs[i]) && files[i].data == File(logs[i])
    {
      assert FileHolds(files[i], i, logs[i]);
    }

    // ---- compaction ----

    /** FindValidEntries: the records of an archived file that the index points at, in order. */
    method FindValidEntries(df: DBFile) returns (entries: seq<Entry>)
      requires Valid() && df in files
      modifies df`Offset
      ensures entries == EntriesOf(Kept(FileRecords(logs[df.Id], df.Id, |logs[df.Id]|), Full()))
    {
      hide *;
      ValidParts();
      ghost var k := FileIndex(df);
      ghost var es, n := logs[k], 0;
      entries := [];
      var offset := 0;
      NoneKept(es, k, Full());
      while offset < df.WriteOffset
        invariant n <= |es| && offset == Start(es, n)
        invariant entries == EntriesOf(Kept(FileRecords(es, k, n), Full()))
        decreases |es| - n
      {
        NotAtEnd(es, n);
        ReadLive(es, n, k);
        var r := df.Read(offset);
        NextKept(es, k, n, Full());
        if ValidEntry(r.entry, offset, df.Id) {
          entries := entries + [r.entry];
        }
        offset := offset + Size(|r.entry.key|, |r.entry.value|, |r.entry.extra|);
        n := n + 1;
      }
      AtEnd(es, n);
    }

    /** The record read at a start is the record there, and passes validEntry exactly when the index points at it. */
    lemma ReadLive(es: seq<Entry>, n: nat, k: nat)
      requires Matches(strIdx, Full(), indexMode) && AllFit(es) && Strings(es) && n < |es|
      ensures ReadAt(File(es), Start(es, n)) == Record(es[n], Length(es[n]))
      ensures ValidEntry(es[n], Start(es, n), k) <==> Live(Located(es[n], k, Start(es, n)), Full())
      ensures Start(es, n + 1) == Start(es, n) + Size(|es[n].key|, |es[n].value|, |es[n].extra|)
    {
      hide ReadAt, Encode, File, Full;
      ReadRecord(es, n, []);
      assert File(es) + [] == File(es);
    }

    /** validEntry, with nothing expired. */
    predicate ValidEntry(e: Entry, offset: nat, fileId: nat)
      reads this
    {
      GetMark(e.state) in {STRING_SET, STRING_EXPIRE} && e.key in strIdx
      && strIdx[e.key].offset == offset && strIdx[e.key].fileId == fileId
    }

    lemma FileIndex(df: DBFile) returns (k: nat)
      requires Disk() && df in files
      ensures k == df.Id < |logs| && AllFit(logs[k]) && Strings(logs[k]) && df.data == File(logs[k])
              && df.WriteOffset == |df.data|
    {
      k :| 0 <= k < |files| && files[k] == df;
      assert FileHolds(files[k], k, logs[k]) && Strings(logs[k]);
    }

    // ---- commands ----

    lemma ValidParts()
      requires Valid()
      ensures Config() && Disk() && Matches(strIdx, Full(), indexMode)
              && (indexMode.KeyOnlyMem? ==> Fresh(cache, Full()))
      ensures logs != [] && Full() == Replay(All(logs)) && Model() == Values(Full())
    {
    }

    lemma ValidWhole()
      requires Config() && Disk() && Matches(strIdx, Full(), indexMode)
               && (indexMode.KeyOnlyMem? ==> Fresh(cache, Full()))
      ensures Valid()
    {
    }

    /** What a stored record does to the index and the map. */
    lemma StoredFull(before: seq<seq<Entry>>, e: Entry)
      requires before != [] && logs == Stored(before, e, blockSize)
      ensures Full() == BuildIndex(Replay(All(before)), StoredAt(before, e, blockSize))
              && StoredAt(before, e, blockSize).entry == e
      ensures Model() == Values(Full())
      ensures IsSet(e) ==> Model() == Values(Replay(All(before)))[e.key := e.value]
      ensures IsRem(e) ==> Model() == Values(Replay(All(before))) - {e.key}
    {
      StoreAppends(before, e, blockSize);
      ReplaySnoc(All(before), StoredAt(before, e, blockSize));
      ValuesBuild(Replay(All(before)), StoredAt(before, e, blockSize));
    }

    /** The cache takes the value, and may drop anything. */
    method CachePut(key: Bytes, value: Bytes)
      modifies `cache
      ensures forall k {:trigger cache[k]} :: k in cache ==>
              if k == key then cache[k] == value else k in old(cache) && cache[k] == old(cache)[k]
    {
      var kept: set<Bytes> := *;
      var full := cache[key := value];
      cache := map k | k in full && k in kept :: full[k];
    }

    /** StrSet. */
    method StrSet(key: Bytes, value: Bytes, now: nat) returns (s: Status)
      requires Valid() && now < TWO_64
      modifies `activeFile, `archivedFiles, `strIdx, `cache, `files, `logs, files`data, files`WriteOffset
      ensures Valid() && s == CheckKeyValue(key, value)
      ensures s == Ok <==> 0 < |key| <= maxKeySize && |value| <= maxValueSize
      ensures s == EmptyKey <==> key == []
      ensures s == KeyTooLarge <==> |key| > maxKeySize
      ensures Model() == if s.Ok? then old(Model())[key := value] else old(Model())
      ensures forall f :: f in files ==> f in old(files) || fresh(f)
    {
      hide *;
      ValidParts();
      s := CheckKeyValue(key, value);
      Limits(key, value);
      if !s.Ok? {
        return;
      }
      SetFits(key, value, now);
      var e := NewSet(key, value, now);
      Store(e);
      SetIndexer(e, old(logs));
      if indexMode.KeyOnlyMem? {
        CachePut(key, value);
      }
      StoredFull(old(logs), e);
      SetKeeps(old(strIdx), old(cache), Replay(All(old(logs))), StoredAt(old(logs), e, blockSize), indexMode, strIdx,
          cache);
      ValidWhole();
    }

    lemma Limits(key: Bytes, value: Bytes)
      ensures var s := CheckKeyValue(key, value);
              && (s == Ok <==> 0 < |key| <= maxKeySize && |value| <= maxValueSize)
              && (s == EmptyKey <==> key == []) && (s == KeyTooLarge <==> |key| > maxKeySize)
              && s in {Ok, EmptyKey, KeyTooLarge, ValueTooLarge}
    {
    }

    lemma SetFits(key: Bytes, value: Bytes, now: nat)
      requires Config() && CheckKeyValue(key, value).Ok? && now < TWO_64
      ensures var e := NewSet(key, value, now);
              Entries.Fits(e) && IsSet(e) && !IsRem(e) && e.key == key != [] && e.value == value
    {
    }

    lemma RemFits(key: Bytes, now: nat)
      requires Config() && CheckKeyValue(key, []).Ok? && now < TWO_64
      ensures var e := NewRem(key, now); Entries.Fits(e) && IsRem(e) && !IsSet(e) && e.key == key != []
    {
    }

    /** SetIndexer: the key's place is where the record just written starts. */
    method SetIndexer(e: Entry, ghost before: seq<seq<Entry>>)
      requires before != [] && activeFile.Id == StoredAt(before, e, blockSize).fileId
      requires activeFile.WriteOffset == StoredAt(before, e, blockSize).offset + Length(e)
      requires Entries.Fits(e)
      modifies `strIdx
      ensures var at := StoredAt(before, e, blockSize);
              strIdx == old(strIdx)[e.key := Indexer(at.fileId, at.offset,
                  if indexMode.KeyValueMem? then e.value else [])]
    {
      var value := if indexMode.KeyValueMem? then e.value else [];
      var size := Size(|e.key|, |e.value|, |e.extra|);
      strIdx := strIdx[e.key := Indexer(activeFile.Id, activeFile.WriteOffset - size, value)];
    }

    /** StrExist. */
    method StrExist(key: Bytes) returns (exist: bool)
      requires Valid()
      ensures exist <==> CheckKeyValue(key, []).Ok? && key in Model()
    {
      if !CheckKeyValue(key, []).Ok? {
        return false;
      }
      return key in strIdx;
    }

    /** StrSetNx. */
    method StrSetNx(key: Bytes, value: Bytes, now: nat) returns (s: Status, suc: bool)
      requires Valid() && now < TWO_64
      modifies `activeFile, `archivedFiles, `strIdx, `cache, `files, `logs, files`data, files`WriteOffset
      ensures Valid()
      ensures var there := CheckKeyValue(key, []).Ok? && key in old(Model());
              && s == (if there then Ok else CheckKeyValue(key, value))
              && (suc <==> !there && s.Ok?)
              && Model() == if suc then old(Model())[key := value] else old(Model())
    {
      var exist := StrExist(key);
      if exist {
        return Ok, false;
      }
      s := StrSet(key, value, now);
      suc := s.Ok?;
    }

    /** getVal: the value kept in the index, or cached, or read where the index points. */
    method GetVal(key: Bytes) returns (s: Status, value: Bytes, suc: bool)
      requires Serving()
      modifies `cache, files`Offset
      ensures Serving() && s == Ok && (suc <==> key in Model()) && (suc ==> value == Model()[key])
    {
      hide *;
      ServingParts();
      InModel(key);
      if key !in strIdx {
        return Ok, [], false;
      }
      var idx := strIdx[key];
      if indexMode.KeyValueMem? {
        return Ok, idx.value, true;
      }
      if key in cache {
        return Ok, cache[key], true;
      }
      Pointed(key);
      var df := activeFile;
      if idx.fileId != df.Id {
        df := archivedFiles[idx.fileId];
      }
      var r := df.Read(idx.offset);
      value := r.entry.value;
      CachePut(key, value);
      ReadKeeps(old(cache), cache, Full(), key, value);
      ServingWhole();
      return Ok, value, true;
    }

    lemma ServingParts()
      requires Serving()
      ensures Config() && FilesServe(files, logs, torn) && activeFile == files[|files| - 1]
              && Archives(archivedFiles, files)
      ensures Matches(strIdx, Full(), indexMode) && (indexMode.KeyOnlyMem? ==> Fresh(cache, Full()))
    {
    }

    lemma ServingWhole()
      requires Config() && FilesServe(files, logs, torn) && activeFile == files[|files| - 1]
               && Archives(archivedFiles, files)
      requires Matches(strIdx, Full(), indexMode) && (indexMode.KeyOnlyMem? ==> Fresh(cache, Full()))
      ensures Serving()
    {
    }

    /** An engine that can store can serve, and one that serves whole files can store. */
    lemma ValidServes()
      ensures Valid() <==> Serving() && Disk()
    {
      if files != [] { HoldingServes(files, logs); }
    }

    lemma InModel(key: Bytes)
      requires Matches(strIdx, Full(), indexMode)
      ensures key in strIdx <==> key in Model()
      ensures key in Model() ==> key in Full() && Model()[key] == Full()[key].value
      ensures key in Model() && indexMode.KeyValueMem? ==> strIdx[key].value == Model()[key]
      ensures Fresh(cache, Full()) && key in Model() && key in cache ==> cache[key] == Model()[key]
    {
    }

    /** The file and offset of the index lead to a record with the key's value. */
    lemma Pointed(key: Bytes)
      requires FilesServe(files, logs, torn) && activeFile == files[|files| - 1] && Archives(archivedFiles, files)
      requires Matches(strIdx, Full(), indexMode) && key in strIdx
      ensures var idx := strIdx[key];
              && key in Full() && (idx.fileId != activeFile.Id ==> idx.fileId in archivedFiles)
              && (var df := if idx.fileId != activeFile.Id then archivedFiles[idx.fileId] else activeFile;
                  && df in files && ReadAt(df.data, idx.offset).Record?
                       && ReadAt(df.data, idx.offset).entry.value == Full()[key].value)
    {
      hide ReadAt;
      forall i {:trigger logs[i]} | 0 <= i < |logs| ensures AllFit(logs[i]) {
        assert FileServes(files[i], i, logs[i], if i == |files| - 1 then torn else []);
      }
      var id := strIdx[key].fileId;
      var tail := if id == |files| - 1 then torn else [];
      ReadPointed(logs, key, tail);
      assert FileServes(files[id], id, logs[id], tail);
    }

    /** Get. */
    method Get(key: Bytes) returns (s: Status, value: Bytes, suc: bool)
      requires Serving()
      modifies `cache, files`Offset
      ensures Serving() && s == Ok
      ensures suc <==> CheckKeyValue(key, []).Ok? && key in Model()
      ensures suc ==> value == Model()[key]
    {
      if !CheckKeyValue(key, []).Ok? {
        return Ok, [], false;
      }
      s, value, suc := GetVal(key);
    }

    /** GetSet: the old value, if there was one, and the new one set in any case. */
    method GetSet(key: Bytes, newValue: Bytes, now: nat) returns (s: Status, oldValue: Bytes, suc: bool)
      requires Valid() && now < TWO_64
      modifies `activeFile, `archivedFiles, `strIdx, `cache, `files, `logs, files
      ensures Valid() && s == CheckKeyValue(key, newValue)
      ensures suc <==> CheckKeyValue(key, []).Ok? && key in old(Model())
      ensures suc ==> oldValue == old(Model())[key]
      ensures Model() == if s.Ok? then old(Model())[key := newValue] else old(Model())
    {
      ValidServes();
      s, oldValue, suc := Get(key);
      ValidServes();
      s := StrSet(key, newValue, now);
    }

    /** Append. */
    method Append(key: Bytes, value: Bytes, now: nat) returns (s: Status, length: nat)
      requires Valid() && now < TWO_64
      modifies `activeFile, `archivedFiles, `strIdx, `cache, `files, `logs, files
      ensures Valid()
      ensures var m := old(Model()); var whole := (if key in m then m[key] else []) + value;
              if !CheckKeyValue(key, value).Ok? then s == CheckKeyValue(key, value) && Model() == m
              else length == |whole| && s == CheckKeyValue(key, whole)
                   && Model() == (if s.Ok? then m[key := whole] else m)
    {
      s := CheckKeyValue(key, value);
      if !s.Ok? {
        return s, 0;
      }
      var oldValue, exist;
      ValidServes();
      s, oldValue, exist := Get(key);
      ValidServes();
      if !exist {
        oldValue := [];
      }
      var newValue := oldValue + value;
      length := |newValue|;
      s := StrSet(key, newValue, now);
    }

    /** Remove. The cache keeps what it has for the key. */
    method Remove(key: Bytes, now: nat) returns (s: Status, suc: bool)
      requires Valid() && now < TWO_64
      modifies `activeFile, `archivedFiles, `strIdx, `cache, `files, `logs, files`data, files`WriteOffset
      ensures Valid() && s == Ok
      ensures suc <==> CheckKeyValue(key, []).Ok? && key in old(Model())
      ensures Model() == if CheckKeyValue(key, []).Ok? then old(Model()) - {key} else old(Model())
    {
      hide *;
      ValidParts();
      if !CheckKeyValue(key, []).Ok? {
        return Ok, false;
      }
      InModel(key);
      RemFits(key, now);
      var e := NewRem(key, now);
      Store(e);
      suc := key in strIdx;
      strIdx := strIdx - {key};
      StoredFull(old(logs), e);
      RemKeeps(old(strIdx), cache, Replay(All(old(logs))), StoredAt(old(logs), e, blockSize), indexMode);
      ValidWhole();
      s := Ok;
    }
  }

  /** Closing and opening again, on the same bytes: the same map, if no record starts at the block size. */
  method Reopen(db: LightDB) returns (again: LightDB)
    requires db.Valid() && NoneAtEdge(db.logs, db.blockSize)
    ensures fresh(again) && again.Valid() && again.Model() == db.Model()
    ensures again.blockSize == db.blockSize && again.indexMode == db.indexMode
  {
    hide *;
    DbParts(db);
    var disk := db.Image();
    WholeDisk(disk, db.logs);
    again := new LightDB.Open(db.blockSize, db.indexMode, db.maxKeySize, db.maxValueSize, disk, db.logs);
    DbParts(again);
  }

  /** Opening after a cut of the last file anywhere: a plain map of the records wholly inside. */
  method OpenCut(blockSize: nat, indexMode: IndexMode, maxKeySize: nat, maxValueSize: nat,
                 disk: seq<Bytes>, ghost written: seq<seq<Entry>>) returns (db: LightDB)
    requires ENTRY_HEADER_SIZE + maxKeySize + maxValueSize < TWO_32
    requires |written| == |disk| && AllStrings(written) && Rolled(written, blockSize) && NoneAtEdge(written, blockSize)
    requires forall i {:trigger written[i]} :: 0 <= i < |disk| ==>
               CutOf(disk[i], written[i]) && (i < |disk| - 1 ==> disk[i] == File(written[i]))
    ensures fresh(db) && db.Serving() && db.Model() == MapOf(EntriesOf(All(Survivors(disk, written))))
  {
    hide *;
    db := new LightDB.Open(blockSize, indexMode, maxKeySize, maxValueSize, disk, written);
    SurvivorsApart(disk, written, blockSize);
    ReplayIsMap(All(db.logs));
    ModelIs(db);
  }

  lemma ModelIs(db: LightDB)
    ensures db.Model() == Values(Replay(All(db.logs)))
  {
  }

  lemma SurvivorsApart(disk: seq<Bytes>, written: seq<seq<Entry>>, blockSize: nat)
    requires |disk| == |written| && NoneAtEdge(written, blockSize)
    ensures NoneAtEdge(Survivors(disk, written), blockSize)
  {
    hide Inside;
    var logs := Survivors(disk, written);
    forall i, k | 0 <= i < |logs| && 0 <= k < |logs[i]| ensures Start(logs[i], k) != blockSize {
      assert logs[i] == written[i][..Inside(written[i], |disk[i]|)];
      var placed := StartsBy(written, i, k, blockSize);
      assert logs[i][..k] == written[i][..k];
      StartPrefix(logs[i], written[i], k);
    }
  }

  lemma DbParts(db: LightDB)
    requires db.Valid()
    ensures db.Disk() && db.logs != [] && AllStrings(db.logs) && Rolled(db.logs, db.blockSize)
    ensures ENTRY_HEADER_SIZE + db.maxKeySize + db.maxValueSize < TWO_32
    ensures db.Model() == Values(Replay(All(db.logs)))
  {
  }

  /** Nothing is lost of whole files. */
  lemma WholeDisk(disk: seq<Bytes>, logs: seq<seq<Entry>>)
    requires |disk| == |logs| > 0
    requires forall i {:trigger logs[i]} :: 0 <= i < |disk| ==> AllFit(logs[i]) && disk[i] == File(logs[i])
    ensures forall i {:trigger logs[i]} :: 0 <= i < |disk| ==> CutOf(disk[i], logs[i])
    ensures Survivors(disk, logs) == logs && Remains(disk, logs) == []
  {
    hide Inside, File;
    forall i {:trigger logs[i]} | 0 <= i < |disk|
      ensures CutOf(disk[i], logs[i]) && logs[i][..Inside(logs[i], |disk[i]|)] == logs[i] {
      assert disk[i] == disk[i][..|disk[i]|];
      SplitsCut(disk[i], logs[i]);
    }
    SplitsCut(disk[|disk| - 1], logs[|disk| - 1]);
  }

  /** NewEntryNoExtra, for the string type's two operations. */
  function NewSet(key: Bytes, value: Bytes, now: nat): Entry {
    Entry(key, value, [], StateOf(TYPE_STRING, STRING_SET), now)
  }

  function NewRem(key: Bytes, now: nat): Entry {
    Entry(key, [], [], StateOf(TYPE_STRING, STRING_REM), now)
  }

  /** A stored set keeps index and cache right. */
  lemma SetKeeps(ix: map<Bytes, Indexer>, cache: map<Bytes, Bytes>, full: map<Bytes, Indexer>, at: Located,
      mode: IndexMode,
                 ix': map<Bytes, Indexer>, cache': map<Bytes, Bytes>)
    requires Matches(ix, full, mode) && (mode.KeyOnlyMem? ==> Fresh(cache, full)) && IsSet(at.entry)
    requires ix' == ix[at.entry.key := Indexer(at.fileId, at.offset, if mode.KeyValueMem? then at.entry.value else [])]
    requires mode.KeyOnlyMem? ==> forall k {:trigger cache'[k]} :: k in cache' ==>
               if k == at.entry.key then cache'[k] == at.entry.value else k in cache && cache'[k] == cache[k]
    ensures Matches(ix', BuildIndex(full, at), mode) && (mode.KeyOnlyMem? ==> Fresh(cache', BuildIndex(full, at)))
  {
  }

  lemma RemKeeps(ix: map<Bytes, Indexer>, cache: map<Bytes, Bytes>, full: map<Bytes, Indexer>, at: Located,
      mode: IndexMode)
    requires Matches(ix, full, mode) && (mode.KeyOnlyMem? ==> Fresh(cache, full)) && IsRem(at.entry)
    ensures Matches(ix - {at.entry.key}, BuildIndex(full, at), mode)
            && (mode.KeyOnlyMem? ==> Fresh(cache, BuildIndex(full, at)))
  {
  }

  lemma ReadKeeps(cache: map<Bytes, Bytes>, cache': map<Bytes, Bytes>, full: map<Bytes, Indexer>, key: Bytes,
      value: Bytes)
    requires Fresh(cache, full) && key in full && full[key].value == value
    requires forall k {:trigger cache'[k]} :: k in cache' ==>
             if k == key then cache'[k] == value else k in cache && cache'[k] == cache[k]
    ensures Fresh(cache', full)
  {
  }

  method WriteActive(active: DBFile, ghost files: seq<DBFile>, ghost logs: seq<seq<Entry>>, e: Entry)
    requires FilesHold(files, logs) && active == files[|files| - 1] && Entries.Fits(e)
    modifies active`data, active`WriteOffset
    ensures FilesHold(files, logs[|logs| - 1 := logs[|logs| - 1] + [e]])
  {
    hide Encode, File;
    assert FileHolds(files[|files| - 1], |files| - 1, logs[|files| - 1]);
    FileSnoc(logs[|logs| - 1], e);
    active.Write(e, TX_ID);
    ghost var logs' := logs[|logs| - 1 := logs[|logs| - 1] + [e]];
    forall i {:trigger files[i]} | 0 <= i < |files| ensures FileHolds(files[i], i, logs'[i]) {
      assert old(FileHolds(files[i], i, logs[i]));
    }
  }

  lemma NewFile(files: seq<DBFile>, logs: seq<seq<Entry>>, f: DBFile)
    requires FilesHold(files, logs) && f.Id == |files| && f.data == [] && f.WriteOffset == 0
    ensures FilesHold(files + [f], logs + [[]])
  {
    assert FileHolds(f, |files|, []);
  }

  lemma NewArchive(files: seq<DBFile>, archived: map<nat, DBFile>, f: DBFile)
    requires files != [] && Archives(archived, files)
    ensures Archives(archived[|files| - 1 := files[|files| - 1]], files + [f])
  {
    var fs, n := files + [f], |files|;
    var kept := archived[n - 1 := files[n - 1]];
    forall i: nat | i < |fs| - 1 ensures i in kept && kept[i] == fs[i] {
      assert fs[i] == files[i];
    }
  }

  lemma StartSnoc(es: seq<Entry>, e: Entry)
    ensures Start(es + [e], |es + [e]|) == Start(es, |es|) + Length(e)
  {
    assert (es + [e])[..|es|] == es[..|es|];
    StartPrefix(es, es + [e], |es|);
  }

  lemma RolledOverIs(logs: seq<seq<Entry>>, blockSize: nat)
    requires logs != [] && AllStrings(logs) && Rolled(logs, blockSize)
    ensures AllStrings(logs + [[]]) && Rolled(logs + [[]], blockSize)
    ensures RolledOver(logs, blockSize) == var last := logs[|logs| - 1];
            if Start(last, |last|) > blockSize then logs + [[]] else logs
  {
    var r := logs + [[]];
    forall i, k {:trigger StartsBy(r, i, k, blockSize)} | 0 <= i < |r| && 0 <= k < |r[i]|
      ensures StartsBy(r, i, k, blockSize) {
      assert StartsBy(logs, i, k, blockSize);
    }
  }

  lemma AppendedStrings(logs: seq<seq<Entry>>, e: Entry, blockSize: nat)
    requires logs != [] && AllStrings(logs) && Rolled(logs, blockSize) && (IsSet(e) || IsRem(e)) && e.key != []
    requires var last := logs[|logs| - 1]; Start(last, |last|) <= blockSize
    ensures var r := logs[|logs| - 1 := logs[|logs| - 1] + [e]]; AllStrings(r) && Rolled(r, blockSize)
  {
    RolledStore(logs, e, blockSize);
  }

  lemma NotAtEnd(es: seq<Entry>, n: nat)
    requires n <= |es| && Start(es, n) < Start(es, |es|)
    ensures n < |es|
  {
  }

  lemma AtEnd(es: seq<Entry>, n: nat)
    requires n <= |es| && Start(es, n) >= Start(es, |es|)
    ensures n == |es|
  {
    if n < |es| { StartGrows(es, n + 1, |es|); }
  }

  lemma NoneKept(es: seq<Entry>, k: nat, ix: map<Bytes, Indexer>)
    ensures EntriesOf(Kept(FileRecords(es, k, 0), ix)) == [] && Start(es, 0) == 0
  {
  }

  lemma NextKept(es: seq<Entry>, k: nat, n: nat, ix: map<Bytes, Indexer>)
    requires n < |es|
    ensures EntriesOf(Kept(FileRecords(es, k, n + 1), ix))
         == EntriesOf(Kept(FileRecords(es, k, n), ix)) +
             if Live(Located(es[n], k, Start(es, n)), ix) then [es[n]] else []
  {
    var ls, ls' := FileRecords(es, k, n), FileRecords(es, k, n + 1);
    assert ls'[..n] == ls && ls'[n] == Located(es[n], k, Start(es, n));
  }

  lemma NoRecords(es: seq<Entry>, i: nat, before: seq<Located>)
    ensures before + FileRecords(es, i, 0) == before
  {
  }

  lemma NextRecord(es: seq<Entry>, i: nat, k: nat, before: seq<Located>)
    requires k < |es|
    ensures Replay(before + FileRecords(es, i, k + 1)) ==
            BuildIndex(Replay(before + FileRecords(es, i, k)), Located(es[k], i, Start(es, k)))
  {
    ReplaySnoc(before + FileRecords(es, i, k), Located(es[k], i, Start(es, k)));
    assert before + FileRecords(es, i, k + 1) == before + FileRecords(es, i, k) + [Located(es[k], i, Start(es, k))];
  }

  lemma ReloadNext(logs: seq<seq<Entry>>, blockSize: nat, i: nat)
    requires i < |logs| && AllFit(logs[i])
    ensures Reloaded(logs, blockSize, i + 1)
         == Reloaded(logs, blockSize, i) + FileRecords(logs[i], i, Reached(logs[i], |File(logs[i])|, blockSize))
  {
  }

  lemma ReloadEnds(logs: seq<seq<Entry>>, blockSize: nat)
    ensures Reloaded(logs, blockSize, 0) == [] && Replay([]) == map[]
    ensures Reload(logs, blockSize) == Reloaded(logs, blockSize, |logs|)
  {
  }

  /** One open file for each on disk. */
  method OpenFiles(disk: seq<Bytes>) returns (fs: seq<DBFile>)
    ensures |fs| == |disk| && (forall f :: f in fs ==> fresh(f))
    ensures forall i {:trigger fs[i]} :: 0 <= i < |fs| ==>
            fs[i].Id == i && fs[i].data == disk[i] && fs[i].WriteOffset == |disk[i]|
  {
    fs := [];
    while |fs| < |disk|
      invariant |fs| <= |disk| && (forall f :: f in fs ==> fresh(f))
      invariant forall i {:trigger fs[i]} :: 0 <= i < |fs| ==>
                fs[i].Id == i && fs[i].data == disk[i] && fs[i].WriteOffset == |disk[i]|
    {
      var f := new DBFile(|fs|, disk[|fs|]);
      fs := fs + [f];
    }
  }

  function RolledOver(logs: seq<seq<Entry>>, blockSize: nat): (r: seq<seq<Entry>>)
    requires logs != []
    ensures r != []
  {
    var last := logs[|logs| - 1];
    if Start(last, |last|) > blockSize then logs + [[]] else logs
  }

  lemma StoredOnRolled(logs: seq<seq<Entry>>, e: Entry, blockSize: nat)
    requires logs != []
    ensures var r := RolledOver(logs, blockSize); var last := r[|r| - 1];
            && Stored(logs, e, blockSize) == r[|r| - 1 := last + [e]]
            && StoredAt(logs, e, blockSize) == Located(e, |r| - 1, Start(last, |last|))
            && Start(last, |last|) <= blockSize
  {
    assert [] + [e] == [e];
  }
}
