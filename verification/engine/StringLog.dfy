/** The string type's log, and what its records mean: the index they rebuild
    and the map they stand for. */
module StringLog {
  import opened Coding
  import opened Entries
  import opened Logs
  import opened TornTails
  import opened Indexers

  /** A record and where it lies: its file, and the offset it starts at. */
  datatype Located = Located(entry: Entry, fileId: nat, offset: nat)

  predicate IsSet(e: Entry) { GetType(e.state) == TYPE_STRING && GetMark(e.state) == STRING_SET }

  predicate IsRem(e: Entry) { GetType(e.state) == TYPE_STRING && GetMark(e.state) == STRING_REM }

  // ---- replay ----

  /** buildStringIndex. */
  function BuildIndex(ix: map<Bytes, Indexer>, l: Located): map<Bytes, Indexer> {
    if IsSet(l.entry) then ix[l.entry.key := Indexer(l.fileId, l.offset, l.entry.value)]
    else if IsRem(l.entry) then ix - {l.entry.key}
    else ix
  }

  function Replay(ls: seq<Located>): map<Bytes, Indexer> {
    if ls == [] then map[] else BuildIndex(Replay(ls[..|ls| - 1]), ls[|ls| - 1])
  }

  function Values(ix: map<Bytes, Indexer>): map<Bytes, Bytes> {
    map k | k in ix :: ix[k].value
  }

  predicate Concerns(e: Entry, key: Bytes) { e.key == key && (IsSet(e) || IsRem(e)) }

  /** Index of the last record about `key`, or -1. */
  function LastAbout(ls: seq<Located>, key: Bytes): (i: int)
    ensures -1 <= i < |ls| && (i >= 0 ==> Concerns(ls[i].entry, key))
    ensures forall j :: i < j < |ls| ==> !Concerns(ls[j].entry, key)
  {
    if ls == [] then -1
    else if Concerns(ls[|ls| - 1].entry, key) then |ls| - 1
    else LastAbout(ls[..|ls| - 1], key)
  }

  lemma LastAboutIs(ls: seq<Located>, key: Bytes, i: int)
    requires -1 <= i < |ls| && (i >= 0 ==> Concerns(ls[i].entry, key))
    requires forall j :: i < j < |ls| ==> !Concerns(ls[j].entry, key)
    ensures LastAbout(ls, key) == i
  {
  }

  function IndexFor(l: Located): Indexer { Indexer(l.fileId, l.offset, l.entry.value) }

  /** The index holds a key exactly when the last record about it is a set, and then points at that record. */
  lemma {:induction false} IndexIsLastSet(ls: seq<Located>, key: Bytes)
    ensures key in Replay(ls) <==> LastAbout(ls, key) >= 0 && IsSet(ls[LastAbout(ls, key)].entry)
    ensures key in Replay(ls) ==> Replay(ls)[key] == IndexFor(ls[LastAbout(ls, key)])
  {
    if ls != [] { IndexIsLastSet(ls[..|ls| - 1], key); }
  }

  lemma ReplaySnoc(ls: seq<Located>, l: Located)
    ensures Replay(ls + [l]) == BuildIndex(Replay(ls), l)
  {
    assert (ls + [l])[..|ls|] == ls;
  }

  // ---- the files ----

  function FileRecords(es: seq<Entry>, fileId: nat, n: nat): (ls: seq<Located>)
    requires n <= |es|
    ensures |ls| == n
  {
    if n == 0 then [] else FileRecords(es, fileId, n - 1) + [Located(es[n - 1], fileId, Start(es, n - 1))]
  }

  /** The records of the first `m` files, file after file; file `i` has id `i`. */
  function Records(logs: seq<seq<Entry>>, m: nat): seq<Located>
    requires m <= |logs|
  {
    if m == 0 then [] else Records(logs, m - 1) + FileRecords(logs[m - 1], m - 1, |logs[m - 1]|)
  }

  function All(logs: seq<seq<Entry>>): seq<Located> { Records(logs, |logs|) }

  lemma {:induction false} FileRecordAt(es: seq<Entry>, fileId: nat, n: nat, k: nat)
    requires k < n <= |es|
    ensures FileRecords(es, fileId, n)[k] == Located(es[k], fileId, Start(es, k))
  {
    if k < n - 1 { FileRecordAt(es, fileId, n - 1, k); }
  }

  lemma {:induction false} FileRecordsPrefix(es: seq<Entry>, fs: seq<Entry>, fileId: nat, n: nat)
    requires n <= |es| && n <= |fs| && es[..n] == fs[..n]
    ensures FileRecords(es, fileId, n) == FileRecords(fs, fileId, n)
  {
    if n > 0 {
      assert es[..n - 1] == es[..n][..n - 1] && fs[..n - 1] == fs[..n][..n - 1];
      assert es[n - 1] == es[..n][n - 1] == fs[..n][n - 1] == fs[n - 1];
      FileRecordsPrefix(es, fs, fileId, n - 1);
      StartPrefix(es, fs, n - 1);
    }
  }

  lemma {:induction false} RecordsPrefix(logs: seq<seq<Entry>>, logs': seq<seq<Entry>>, m: nat)
    requires m <= |logs| && m <= |logs'| && forall i :: 0 <= i < m ==> logs[i] == logs'[i]
    ensures Records(logs, m) == Records(logs', m)
  {
    if m > 0 { RecordsPrefix(logs, logs', m - 1); }
  }

  /** Each located record is a record of its file, where that file has it. */
  predicate Placed(logs: seq<seq<Entry>>, l: Located) {
    l.fileId < |logs| && exists k {:trigger logs[l.fileId][k]} ::
      0 <= k < |logs[l.fileId]| && logs[l.fileId][k] == l.entry && Start(logs[l.fileId], k) == l.offset
  }

  lemma {:induction false} RecordsPlaced(logs: seq<seq<Entry>>, m: nat, i: nat)
    requires m <= |logs| && i < |Records(logs, m)|
    ensures Placed(logs, Records(logs, m)[i]) && Records(logs, m)[i].fileId < m
  {
    var before := Records(logs, m - 1);
    if i < |before| {
      RecordsPlaced(logs, m - 1, i);
    } else {
      FileRecordAt(logs[m - 1], m - 1, |logs[m - 1]|, i - |before|);
    }
  }

  // ---- store ----

  /** store: the active file is left for the next one once it is longer than the block size. */
  function Stored(logs: seq<seq<Entry>>, e: Entry, blockSize: nat): (r: seq<seq<Entry>>)
    requires logs != []
    ensures r != []
  {
    var last := logs[|logs| - 1];
    if Start(last, |last|) > blockSize then logs + [[e]] else logs[|logs| - 1 := last + [e]]
  }

  /** Where store puts the record. */
  function StoredAt(logs: seq<seq<Entry>>, e: Entry, blockSize: nat): Located
    requires logs != []
  {
    var last := logs[|logs| - 1];
    if Start(last, |last|) > blockSize then Located(e, |logs|, 0) else Located(e, |logs| - 1, Start(last, |last|))
  }

  lemma StoreAppends(logs: seq<seq<Entry>>, e: Entry, blockSize: nat)
    requires logs != []
    ensures All(Stored(logs, e, blockSize)) == All(logs) + [StoredAt(logs, e, blockSize)]
  {
    var r, last := Stored(logs, e, blockSize), logs[|logs| - 1];
    if Start(last, |last|) > blockSize {
      RecordsPrefix(logs, r, |logs|);
      assert r[|logs|] == [e];
      assert FileRecords([e], |logs|, 0) == [];
      assert FileRecords([e], |logs|, 1) == FileRecords([e], |logs|, 0) + [Located(e, |logs|, 0)];
    } else {
      RecordsPrefix(logs, r, |logs| - 1);
      var fs := last + [e];
      assert r[|logs| - 1] == fs && fs[..|last|] == last[..|last|];
      FileRecordsPrefix(last, fs, |logs| - 1, |last|);
      StartPrefix(last, fs, |last|);
    }
  }

  /** The record's own place is no earlier record's. */
  lemma StoredApart(logs: seq<seq<Entry>>, e: Entry, blockSize: nat, i: nat)
    requires logs != [] && i < |All(logs)|
    ensures var l, at := All(logs)[i], StoredAt(logs, e, blockSize); l.fileId != at.fileId || l.offset < at.offset
  {
    RecordsPlaced(logs, |logs|, i);
    var l := All(logs)[i];
    var k :| 0 <= k < |logs[l.fileId]| && logs[l.fileId][k] == l.entry && Start(logs[l.fileId], k) == l.offset;
    StartGrows(logs[l.fileId], k + 1, |logs[l.fileId]|);
  }

  // ---- reopening ----

  /** What the load loop gets out of each file of the first `m`. */
  function Reloaded(logs: seq<seq<Entry>>, blockSize: nat, m: nat): seq<Located>
    requires m <= |logs|
  {
    if m == 0 then []
    else
      var es := logs[m - 1];
      Reloaded(logs, blockSize, m - 1) + FileRecords(es, m - 1, Reached(es, Start(es, |es|), blockSize))
  }

  function Reload(logs: seq<seq<Entry>>, blockSize: nat): seq<Located> { Reloaded(logs, blockSize, |logs|) }

  /** Rolling keeps every start at or below the block size. */
  predicate Rolled(logs: seq<seq<Entry>>, blockSize: nat) {
    forall i, k {:trigger StartsBy(logs, i, k, blockSize)} :: 0 <= i < |logs| && 0 <= k < |logs[i]| ==>
      StartsBy(logs, i, k, blockSize)
  }

  predicate StartsBy(logs: seq<seq<Entry>>, i: nat, k: nat, bound: nat)
    requires i < |logs| && k < |logs[i]|
  {
    Start(logs[i], k) <= bound
  }

  /** No record starts at the block size itself. */
  predicate NoneAtEdge(logs: seq<seq<Entry>>, blockSize: nat) {
    forall i, k {:trigger StartsBy(logs, i, k, blockSize)} :: 0 <= i < |logs| && 0 <= k < |logs[i]| ==>
      Start(logs[i], k) != blockSize
  }

  lemma RolledStore(logs: seq<seq<Entry>>, e: Entry, blockSize: nat)
    requires logs != [] && Rolled(logs, blockSize)
    ensures Rolled(Stored(logs, e, blockSize), blockSize)
  {
    var r, last := Stored(logs, e, blockSize), logs[|logs| - 1];
    forall i, k {:trigger StartsBy(r, i, k, blockSize)} | 0 <= i < |r| && 0 <= k < |r[i]|
      ensures StartsBy(r, i, k, blockSize) {
      if i < |logs| && k < |logs[i]| {
        assert StartsBy(logs, i, k, blockSize);
        assert r[i][..k] == logs[i][..k];
        StartPrefix(r[i], logs[i], k);
      } else if i < |logs| {
        assert r[i][..k] == last[..k];
        StartPrefix(r[i], last, k);
      }
    }
  }

  lemma {:induction false} ReloadedAll(logs: seq<seq<Entry>>, blockSize: nat, m: nat)
    requires m <= |logs| && Rolled(logs, blockSize) && NoneAtEdge(logs, blockSize)
    ensures Reloaded(logs, blockSize, m) == Records(logs, m)
  {
    if m > 0 {
      ReloadedAll(logs, blockSize, m - 1);
      var es := logs[m - 1];
      var r := Reached(es, Start(es, |es|), blockSize);
      if r < |es| {
        assert StartsBy(logs, m - 1, r, blockSize);
        StartGrows(es, r + 1, |es|);
      }
    }
  }

  /** Reopening rebuilds the index when no record starts at the block size. */
  lemma ReopenRebuilds(logs: seq<seq<Entry>>, blockSize: nat)
    requires Rolled(logs, blockSize) && NoneAtEdge(logs, blockSize)
    ensures Replay(Reload(logs, blockSize)) == Replay(All(logs))
  {
    ReloadedAll(logs, blockSize, |logs|);
  }

  // ---- a cut last file ----

  /** The whole records of each file on a disk, one empty file at least. */
  function Survivors(disk: seq<Bytes>, written: seq<seq<Entry>>): (logs: seq<seq<Entry>>)
    requires |disk| == |written|
    ensures |logs| == (if disk == [] then 1 else |disk|)
    ensures forall i {:trigger logs[i]} :: 0 <= i < |disk| ==> logs[i] == written[i][..Inside(written[i], |disk[i]|)]
    ensures disk == [] ==> logs == [[]]
  {
    if disk == [] then [[]]
    else seq(|disk|, i requires 0 <= i < |disk| => written[i][..Inside(written[i], |disk[i]|)])
  }

  /** What stands behind them in the last file. */
  function Remains(disk: seq<Bytes>, written: seq<seq<Entry>>): Bytes
    requires |disk| == |written|
  {
    if disk == [] then []
    else
      var data, es := disk[|disk| - 1], written[|disk| - 1];
      InsideEnds(es, |data|);
      data[Start(es, Inside(es, |data|))..]
  }

  /** Loading a cut file comes to loading the file of its whole records. */
  lemma CutReloads(es: seq<Entry>, n: nat, fileId: nat, blockSize: nat)
    ensures var w := es[..Inside(es, n)];
            FileRecords(es, fileId, Reached(es, n, blockSize)) ==
                FileRecords(w, fileId, Reached(w, Start(w, |w|), blockSize))
  {
    hide Inside, Reached;
    var m := Inside(es, n);
    var w := es[..m];
    InsideEnds(es, n);
    StartPrefix(es, w, m);
    var r, q := Reached(es, n, blockSize), Reached(w, Start(w, m), blockSize);
    if m < |es| { ReachedIsInside(es, n, blockSize, m); }
    var k := if q < r then q else r;
    if k < m {
      SameGets(es, m, n, blockSize, k);
      ReachedIsInside(es, n, blockSize, k);
      ReachedIsInside(w, Start(w, m), blockSize, k);
    }
    assert es[..r] == w[..r];
    FileRecordsPrefix(es, w, fileId, r);
  }

  lemma SameGets(es: seq<Entry>, m: nat, n: nat, blockSize: nat, k: nat)
    requires k < m <= |es| && Start(es, m) <= n
    ensures Gets(es, n, blockSize, k) <==> Gets(es[..m], Start(es[..m], m), blockSize, k)
  {
    var w := es[..m];
    StartPrefix(es, w, m);
    assert es[..k] == w[..k] && es[..k + 1] == w[..k + 1];
    StartPrefix(es, w, k);
    StartPrefix(es, w, k + 1);
    StartGrows(es, k + 1, m);
  }

  // ---- the record at the edge ----

  lemma ReachedSnoc(es: seq<Entry>, e: Entry, blockSize: nat)
    requires Start(es, |es|) <= blockSize
    ensures Reached(es, Start(es, |es|), blockSize) == |es|
    ensures var fs := es + [e];
            Reached(fs, Start(fs, |fs|), blockSize) == if Start(es, |es|) < blockSize then |fs| else |es|
  {
    var r := Reached(es, Start(es, |es|), blockSize);
    if r < |es| { StartGrows(es, r + 1, |es|); }
    var fs := es + [e];
    assert fs[..|es|] == es[..|es|];
    StartPrefix(es, fs, |es|);
    StartGrows(fs, |es|, |fs|);
    var q := Reached(fs, Start(fs, |fs|), blockSize);
    ReachedIsInside(fs, Start(fs, |fs|), blockSize, |es|);
    if q < |es| {
      StartGrows(fs, q + 1, |es|);
    }
  }

  lemma {:induction false} ReloadedPrefix(logs: seq<seq<Entry>>, logs': seq<seq<Entry>>, blockSize: nat, m: nat)
    requires m <= |logs| && m <= |logs'| && forall i :: 0 <= i < m ==> logs[i] == logs'[i]
    ensures Reloaded(logs, blockSize, m) == Reloaded(logs', blockSize, m)
  {
    if m > 0 { ReloadedPrefix(logs, logs', blockSize, m - 1); }
  }

  /** A stored record is read again unless it starts at the block size. */
  lemma ReloadStored(logs: seq<seq<Entry>>, e: Entry, blockSize: nat)
    requires logs != []
    ensures var at := StoredAt(logs, e, blockSize);
            Reload(Stored(logs, e, blockSize), blockSize) == Reload(logs, blockSize) +
                if at.offset == blockSize then [] else [at]
  {
    var r, last, n := Stored(logs, e, blockSize), logs[|logs| - 1], |logs|;
    if Start(last, |last|) > blockSize {
      ReloadedPrefix(logs, r, blockSize, n);
      assert r[n] == [e] && [] + [e] == [e];
      ReachedSnoc([], e, blockSize);
      assert FileRecords([e], n, 1) == FileRecords([e], n, 0) + [Located(e, n, 0)];
    } else {
      ReloadedPrefix(logs, r, blockSize, n - 1);
      var fs := last + [e];
      assert r[n - 1] == fs && fs[..|last|] == last[..|last|];
      ReachedSnoc(last, e, blockSize);
      FileRecordsPrefix(last, fs, n - 1, |last|);
      StartPrefix(last, fs, |last|);
    }
  }

  /** One store keeps reopening faithful exactly when its record does not start
      at the block size, or removes a key that is not there. */
  lemma StoreReopensIff(logs: seq<seq<Entry>>, e: Entry, blockSize: nat)
    requires logs != [] && (IsSet(e) || IsRem(e)) && Replay(Reload(logs, blockSize)) == Replay(All(logs))
    ensures Replay(Reload(Stored(logs, e, blockSize), blockSize)) == Replay(All(Stored(logs, e, blockSize)))
       <==> StoredAt(logs, e, blockSize).offset != blockSize || (IsRem(e) && e.key !in Replay(All(logs)))
  {
    var at, ls := StoredAt(logs, e, blockSize), All(logs);
    ReloadStored(logs, e, blockSize);
    StoreAppends(logs, e, blockSize);
    ReplaySnoc(ls, at);
    ReplaySnoc(Reload(logs, blockSize), at);
    if at.offset == blockSize {
      assert Reload(logs, blockSize) + [] == Reload(logs, blockSize);
      if IsSet(e) && e.key in Replay(ls) {
        IndexIsLastSet(ls, e.key);
        StoredApart(logs, e, blockSize, LastAbout(ls, e.key));
      }
    }
  }

  /** Such a record exists for every block size a first record can fill. */
  lemma EdgeRecordLost(first: Entry, e: Entry)
    requires IsSet(first) && IsSet(e) && first.key != e.key
    ensures var blockSize := Length(first); var logs := Stored([[first]], e, blockSize);
            e.key in Replay(All(logs)) && e.key !in Replay(Reload(logs, blockSize))
  {
    hide Reload, All, Replay, Reached;
    var blockSize := Length(first);
    FirstRecord(first);
    StoreAppends([[first]], e, blockSize);
    ReloadStored([[first]], e, blockSize);
    ReplaySnoc(All([[first]]), StoredAt([[first]], e, blockSize));
    assert Reload([[first]], blockSize) + [] == Reload([[first]], blockSize);
  }

  /** A first record fills a block of its own length, and reopening gets it. */
  lemma FirstRecord(first: Entry)
    requires IsSet(first)
    ensures Start([first], 1) == Length(first)
    ensures Replay(All([[first]])).Keys == Replay(Reload([[first]], Length(first))).Keys == {first.key}
  {
    hide Reload, All, Reached, Records, FileRecords;
    var blockSize := Length(first);
    var at := StoredAt([[]], first, blockSize);
    assert Start([first], 1) == Start([first], 0) + Length(first);
    assert [] + [first] == [first] && Stored([[]], first, blockSize) == [[first]];
    NoRecordsYet(blockSize);
    StoreAppends([[]], first, blockSize);
    ReloadStored([[]], first, blockSize);
    assert All([[first]]) == [] + [at] && Reload([[first]], blockSize) == [] + [at];
    ReplaySnoc([], at);
  }

  lemma NoRecordsYet(blockSize: nat)
    ensures All([[]]) == [] && Reload([[]], blockSize) == []
  {
    hide Reached;
    assert FileRecords([], 0, 0) == [];
    assert All([[]]) == Records([[]], 0) + FileRecords([], 0, 0);
    assert Reached([], Start([], 0), blockSize) == 0;
    assert Reload([[]], blockSize) == Reloaded([[]], blockSize, 0) + FileRecords([], 0, 0);
  }

  // ---- the map ----

  /** A plain map under a run of records. */
  function MapOf(es: seq<Entry>): map<Bytes, Bytes> {
    if es == [] then map[]
    else
      var m, e := MapOf(es[..|es| - 1]), es[|es| - 1];
      if IsSet(e) then m[e.key := e.value] else if IsRem(e) then m - {e.key} else m
  }

  function EntriesOf(ls: seq<Located>): (es: seq<Entry>)
    ensures |es| == |ls| && forall i :: 0 <= i < |es| ==> es[i] == ls[i].entry
  {
    seq(|ls|, i requires 0 <= i < |ls| => ls[i].entry)
  }

  /** Places aside, the index is the map. */
  lemma {:induction false} ReplayIsMap(ls: seq<Located>)
    ensures Values(Replay(ls)) == MapOf(EntriesOf(ls))
  {
    if ls != [] {
      var before := ls[..|ls| - 1];
      ReplayIsMap(before);
      assert EntriesOf(ls)[..|ls| - 1] == EntriesOf(before);
      ValuesBuild(Replay(before), ls[|ls| - 1]);
    }
  }

  lemma ValuesBuild(ix: map<Bytes, Indexer>, l: Located)
    ensures Values(BuildIndex(ix, l)) ==
            if IsSet(l.entry) then Values(ix)[l.entry.key := l.entry.value]
                else if IsRem(l.entry) then Values(ix) - {l.entry.key} else Values(ix)
  {
  }

  // ---- compaction ----

  /** validEntry: a set record the index points at. */
  predicate Live(l: Located, ix: map<Bytes, Indexer>) {
    IsSet(l.entry) && l.entry.key in ix && ix[l.entry.key].fileId == l.fileId && ix[l.entry.key].offset == l.offset
  }

  /** The live records, in order. */
  function Kept(ls: seq<Located>, ix: map<Bytes, Indexer>): seq<Located> {
    if ls == [] then []
    else
      var last := ls[|ls| - 1];
      Kept(ls[..|ls| - 1], ix) + if Live(last, ix) then [last] else []
  }

  lemma {:induction false} KeptIs(ls: seq<Located>, ix: map<Bytes, Indexer>, l: Located)
    ensures l in Kept(ls, ix) <==> l in ls && Live(l, ix)
  {
    if ls != [] {
      KeptIs(ls[..|ls| - 1], ix, l);
      assert ls == ls[..|ls| - 1] + [ls[|ls| - 1]];
    }
  }

  lemma {:induction false} KeptOver(ls: seq<Located>, ks: seq<Located>, ix: map<Bytes, Indexer>)
    ensures Kept(ls + ks, ix) == Kept(ls, ix) + Kept(ks, ix)
  {
    if ks == [] {
      assert ls + ks == ls;
    } else {
      assert (ls + ks)[..|ls + ks| - 1] == ls + ks[..|ks| - 1];
      KeptOver(ls, ks[..|ks| - 1], ix);
    }
  }

  /** One place, one record. */
  lemma SamePlace(logs: seq<seq<Entry>>, m: Located, l: Located)
    requires Placed(logs, m) && Placed(logs, l) && m.fileId == l.fileId && m.offset == l.offset
    ensures m == l
  {
    var es := logs[l.fileId];
    var j :| 0 <= j < |es| && es[j] == m.entry && Start(es, j) == m.offset;
    var k :| 0 <= k < |es| && es[k] == l.entry && Start(es, k) == l.offset;
    if j < k { StartGrows(es, j, k); }
    if k < j { StartGrows(es, k, j); }
  }

  predicate AllPlaced(logs: seq<seq<Entry>>, ls: seq<Located>) {
    forall l {:trigger Placed(logs, l)} :: l in ls ==> Placed(logs, l)
  }

  lemma RecordsAllPlaced(logs: seq<seq<Entry>>, m: nat)
    requires m <= |logs|
    ensures AllPlaced(logs, Records(logs, m))
  {
    forall l {:trigger Placed(logs, l)} | l in Records(logs, m) ensures Placed(logs, l) {
      var i :| 0 <= i < |Records(logs, m)| && Records(logs, m)[i] == l;
      RecordsPlaced(logs, m, i);
    }
  }

  /** The last record about a key in `a + b`. */
  lemma LastAboutOver(a: seq<Located>, b: seq<Located>, key: Bytes)
    ensures LastAbout(a + b, key) == if LastAbout(b, key) >= 0 then |a| + LastAbout(b, key) else LastAbout(a, key)
  {
    var i := if LastAbout(b, key) >= 0 then |a| + LastAbout(b, key) else LastAbout(a, key);
    var c := a + b;
    forall j | i < j < |c| ensures !Concerns(c[j].entry, key) {
      if j >= |a| { assert c[j] == b[j - |a|]; }
    }
    LastAboutIs(c, key, i);
  }

  /** Dropping the dead records of `a` loses no key and no value. */
  lemma KeptReplays(logs: seq<seq<Entry>>, a: seq<Located>, b: seq<Located>)
    requires AllPlaced(logs, a)
    ensures Replay(Kept(a, Replay(a + b)) + b) == Replay(a + b)
  {
    var ix := Replay(a + b);
    var k := Kept(a, ix);
    forall key ensures key in Replay(k + b) <==> key in ix
               ensures key in ix ==> Replay(k + b)[key] == ix[key]
    {
      KeyReplays(logs, a, b, key);
    }
  }

  lemma KeyReplays(logs: seq<seq<Entry>>, a: seq<Located>, b: seq<Located>, key: Bytes)
    requires AllPlaced(logs, a)
    ensures var ix := Replay(a + b); var r := Replay(Kept(a, ix) + b);
            (key in r <==> key in ix) && (key in ix ==> r[key] == ix[key])
  {
    var ix := Replay(a + b);
    var k := Kept(a, ix);
    IndexIsLastSet(a + b, key);
    IndexIsLastSet(k + b, key);
    LastAboutOver(a, b, key);
    LastAboutOver(k, b, key);
    if LastAbout(b, key) < 0 {
      var j := LastAbout(k, key);
      if j >= 0 {
        KeptIs(a, ix, k[j]);
        if LastAbout(a, key) >= 0 { PointedAt(logs, a, b, key, k[j]); }
      }
      if key in ix {
        var l := a[LastAbout(a, key)];
        KeptIs(a, ix, l);
        var i :| 0 <= i < |k| && k[i] == l;
        assert j >= i;
      }
    }
  }

  /** A live record about a key with nothing later about it is that key's last. */
  lemma PointedAt(logs: seq<seq<Entry>>, a: seq<Located>, b: seq<Located>, key: Bytes, l: Located)
    requires AllPlaced(logs, a) && LastAbout(b, key) < 0 && LastAbout(a, key) >= 0
    requires l in a && Live(l, Replay(a + b)) && l.entry.key == key
    ensures l == a[LastAbout(a, key)] && IsSet(a[LastAbout(a, key)].entry)
  {
    IndexIsLastSet(a + b, key);
    LastAboutOver(a, b, key);
    var m := a[LastAbout(a, key)];
    assert m in a && Placed(logs, m) && Placed(logs, l);
    SamePlace(logs, m, l);
  }

  /** Replaying the kept archived records and then the active file gives the map of everything. */
  lemma CompactionKeepsMap(logs: seq<seq<Entry>>)
    requires logs != []
    ensures var n := |logs| - 1; var a := Records(logs, n); var b := FileRecords(logs[n], n, |logs[n]|);
            && All(logs) == a + b
            && MapOf(EntriesOf(Kept(a, Replay(All(logs)))) + EntriesOf(b)) == MapOf(EntriesOf(All(logs)))
  {
    var n := |logs| - 1;
    var a, b := Records(logs, n), FileRecords(logs[n], n, |logs[n]|);
    RecordsAllPlaced(logs, n);
    KeptReplays(logs, a, b);
    var k := Kept(a, Replay(a + b));
    ReplayIsMap(a + b);
    ReplayIsMap(k + b);
    assert EntriesOf(k + b) == EntriesOf(k) + EntriesOf(b);
  }
}
