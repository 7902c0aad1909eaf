/** Hash commands as a change of the hashes and a record in the log, and the
    replay of those records. */
module HashLog {
  import opened Coding
  import opened Entries

  type Hash = map<Bytes, Bytes>
  type Hashes = map<Bytes, Hash>

  const TYPE_HASH: nat := 2
  const HSET: nat := 14
  const HCLEAR: nat := 16

  // ---- the hash type ----

  function HashAt(r: Hashes, key: Bytes): Hash { if key in r then r[key] else map[] }

  function SetField(r: Hashes, key: Bytes, field: Bytes, value: Bytes): Hashes {
    r[key := HashAt(r, key)[field := value]]
  }

  // ---- replay ----

  function HashEntry(key: Bytes, value: Bytes, extra: Bytes, mark: nat, now: nat): Entry
    requires mark < 128
  {
    Entry(key, value, extra, StateOf(TYPE_HASH, mark), now)
  }

  /** buildHashIndex for the commands here. */
  function BuildHashIndex(r: Hashes, e: Entry): Hashes {
    var mark := GetMark(e.state);
    if mark == HSET then SetField(r, e.key, e.extra, e.value)
    else if mark == HCLEAR then r - {e.key}
    else r
  }

  function ReplayHashes(log: seq<Entry>): Hashes {
    if log == [] then map[] else BuildHashIndex(ReplayHashes(log[..|log| - 1]), log[|log| - 1])
  }

  lemma ReplaySnoc(log: seq<Entry>, e: Entry)
    ensures ReplayHashes(log + [e]) == BuildHashIndex(ReplayHashes(log), e)
  {
    assert (log + [e])[..|log|] == log;
  }

  lemma MarkOf(mark: nat)
    requires mark < 128
    ensures GetMark(StateOf(TYPE_HASH, mark)) == mark
  {
    StateRoundTrip(TYPE_HASH, mark);
  }

  // ---- the commands ----

  class HashStore {
    var record: Hashes
    var log: seq<Entry>
    const maxKeySize: nat
    const maxValueSize: nat

    /** Replaying the log gives the hashes. */
    ghost predicate Valid()
      reads this
    {
      ReplayHashes(log) == record
    }

    constructor (maxKeySize: nat, maxValueSize: nat)
      ensures Valid() && record == map[] && log == []
    {
      this.maxKeySize, this.maxValueSize := maxKeySize, maxValueSize;
      record, log := map[], [];
    }

    /** CheckKeyValue. */
    predicate Accepts(key: Bytes, value: Bytes) {
      key != [] && |key| <= maxKeySize && |value| <= maxValueSize
    }

    method Store(e: Entry)
      modifies `log
      ensures log == old(log) + [e]
    {
      log := log + [e];
    }

    /** HGet, into a text that stays as it is if the field is missing. */
    method HGet(key: Bytes, field: Bytes, value0: Bytes) returns (found: bool, value: Bytes)
      ensures found <==> Accepts(key, field) && field in HashAt(record, key)
      ensures value == if found then record[key][field] else value0
    {
      if !Accepts(key, field) || key !in record || field !in record[key] {
        return false, value0;
      }
      return true, record[key][field];
    }

    /** HSet: nothing happens if the field already reads as the value, which a missing field does for an empty one. */
    method HSet(key: Bytes, field: Bytes, value: Bytes, now: nat) returns (ok: bool, res: nat)
      requires Valid()
      modifies this
      ensures Valid() && ok == (Accepts(key, field) && Accepts(key, value))
      ensures ok <==> 0 < |key| <= maxKeySize && |field| <= maxValueSize && |value| <= maxValueSize
      ensures ok && value != [] ==> HashAt(record, key) == HashAt(old(record), key)[field := value]
      ensures forall k | k != key :: HashAt(record, k) == HashAt(old(record), k)
      ensures var was := HashAt(old(record), key); var same := (if field in was then was[field] else []) == value;
              && record == (if ok && !same then SetField(old(record), key, field, value) else old(record))
              && log == old(log) + (if ok && !same then [HashEntry(key, value, field, HSET, now)] else [])
              && res == if ok && (same || field !in was) then 1 else 0
    {
      if !Accepts(key, field) || !Accepts(key, value) {
        return false, 0;
      }
      ok := true;
      var _, oldValue := HGet(key, field, []);
      if oldValue == value {
        return true, 1;
      }
      if key !in record {
        record := record[key := map[]];
      }
      res := if field !in record[key] then 1 else 0;
      record := record[key := record[key][field := value]];
      Logged(key, field, value, now, old(record));
    }

    /** HSetNx. */
    method HSetNx(key: Bytes, field: Bytes, value: Bytes, now: nat) returns (ok: bool, res: bool)
      requires Valid()
      modifies this
      ensures Valid() && ok == (Accepts(key, field) && Accepts(key, value))
      ensures res <==> ok && field !in HashAt(old(record), key)
      ensures res ==> HashAt(record, key) == HashAt(old(record), key)[field := value]
      ensures forall k | k != key || !res :: HashAt(record, k) == HashAt(old(record), k)
      ensures record == if res then SetField(old(record), key, field, value) else old(record)
      ensures log == old(log) + if res then [HashEntry(key, value, field, HSET, now)] else []
    {
      if !Accepts(key, field) || !Accepts(key, value) {
        return false, false;
      }
      ok := true;
      if key !in record {
        record := record[key := map[]];
        record := record[key := record[key][field := value]];
        res := true;
      } else if field !in record[key] {
        record := record[key := record[key][field := value]];
        res := true;
      } else {
        return true, false;
      }
      Logged(key, field, value, now, old(record));
    }

    /** Both commands log the field as set. */
    method Logged(key: Bytes, field: Bytes, value: Bytes, now: nat, ghost before: Hashes)
      requires ReplayHashes(log) == before && record == SetField(before, key, field, value)
      modifies `log
      ensures Valid()
      ensures log == old(log) + [HashEntry(key, value, field, HSET, now)]
    {
      var e := HashEntry(key, value, field, HSET, now);
      MarkOf(HSET);
      ReplaySnoc(log, e);
      Store(e);
    }

    /** HClear, which accepts any key and always logs. */
    method HClear(key: Bytes, now: nat) returns (res: nat)
      requires Valid()
      modifies this
      ensures Valid() && record == old(record) - {key} && res == |HashAt(old(record), key)|
      ensures log == old(log) + [HashEntry(key, [], [], HCLEAR, now)]
    {
      var e := HashEntry(key, [], [], HCLEAR, now);
      MarkOf(HCLEAR);
      ReplaySnoc(log, e);
      Store(e);
      res := if key in record then |record[key]| else 0;
      record := record - {key};
    }
  }

  // ---- dump ----

  ghost predicate Same(r: Hashes, q: Hashes) {
    forall key {:trigger HashAt(r, key)} {:trigger HashAt(q, key)} :: HashAt(r, key) == HashAt(q, key)
  }

  /** dumpHash: every field of every hash, in any order. */
  method DumpHash(record: Hashes, now: nat) returns (entries: seq<Entry>)
    ensures Same(ReplayHashes(entries), record)
  {
    entries := [];
    var rest := record.Keys;
    while rest != {}
      invariant rest <= record.Keys && Dumped(ReplayHashes(entries), record, rest)
      decreases |rest|
    {
      var key :| key in rest;
      entries := DumpOne(entries, key, record[key], now);
      rest := rest - {key};
    }
  }

  ghost predicate Dumped(r: Hashes, record: Hashes, rest: set<Bytes>) {
    forall key {:trigger HashAt(r, key)} :: HashAt(r, key) == if key in rest then map[] else HashAt(record, key)
  }

  method DumpOne(before: seq<Entry>, key: Bytes, hash: Hash, now: nat) returns (entries: seq<Entry>)
    requires HashAt(ReplayHashes(before), key) == map[]
    ensures forall k {:trigger HashAt(ReplayHashes(entries), k)} ::
              HashAt(ReplayHashes(entries), k) == if k == key then hash else HashAt(ReplayHashes(before), k)
  {
    hide HashAt, ReplayHashes, SetField, HashEntry;
    entries := before;
    var rest := hash.Keys;
    while rest != {}
      invariant rest <= hash.Keys
      invariant forall k {:trigger HashAt(ReplayHashes(entries), k)} ::
                  HashAt(ReplayHashes(entries), k) == if k == key then hash - rest else HashAt(ReplayHashes(before), k)
      decreases |rest|
    {
      var f :| f in rest;
      var e := HashEntry(key, hash[f], f, HSET, now);
      FieldLogged(entries, key, f, hash[f], now);
      Restored(hash, rest, f);
      entries := entries + [e];
      rest := rest - {f};
    }
    assert hash - rest == hash;
  }

  lemma Restored(hash: Hash, rest: set<Bytes>, f: Bytes)
    requires f in rest && rest <= hash.Keys
    ensures (hash - rest)[f := hash[f]] == hash - (rest - {f})
  {
  }

  /** Replaying one more field. */
  lemma FieldLogged(es: seq<Entry>, key: Bytes, field: Bytes, value: Bytes, now: nat)
    ensures var r, q := ReplayHashes(es), ReplayHashes(es + [HashEntry(key, value, field, HSET, now)]);
            forall k {:trigger HashAt(q, k)} :: HashAt(q, k) ==
              if k == key then HashAt(r, key)[field := value] else HashAt(r, k)
  {
    hide ReplayHashes;
    MarkOf(HSET);
    ReplaySnoc(es, HashEntry(key, value, field, HSET, now));
    FieldSet(ReplayHashes(es), key, field, value);
  }

  lemma FieldSet(r: Hashes, key: Bytes, field: Bytes, value: Bytes)
    ensures forall k {:trigger HashAt(SetField(r, key, field, value), k)} ::
              HashAt(SetField(r, key, field, value), k) == if k == key then HashAt(r, key)[field := value]
                  else HashAt(r, k)
  {
  }
}
