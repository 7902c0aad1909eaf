/** Set commands as a change of the sets and a record in the log, and the
    replay of those records. */
module SetLog {
  import opened Coding
  import opened Entries

  type Sets = map<Bytes, set<Bytes>>

  const TYPE_SET: nat := 3
  const SADD: nat := 18
  const SREM: nat := 19
  const SMOVE: nat := 20
  const SCLEAR: nat := 21

  // ---- the set type ----

  function MembersAt(r: Sets, key: Bytes): set<Bytes> { if key in r then r[key] else {} }

  /** The same members everywhere: an empty set and no set are the same. */
  ghost predicate Same(r: Sets, q: Sets) {
    forall key {:trigger MembersAt(r, key)} {:trigger MembersAt(q, key)} :: MembersAt(r, key) == MembersAt(q, key)
  }

  function AddTo(r: Sets, key: Bytes, member: Bytes): Sets { r[key := MembersAt(r, key) + {member}] }

  /** Erasing the last member leaves an empty set. */
  function RemoveFrom(r: Sets, key: Bytes, member: Bytes): Sets {
    if member in MembersAt(r, key) then r[key := r[key] - {member}] else r
  }

  /** Popping the last member leaves no set. */
  function PopFrom(r: Sets, key: Bytes, member: Bytes): Sets {
    if key !in r then r
    else if r[key] - {member} == {} then r - {key}
    else r[key := r[key] - {member}]
  }

  function Move(r: Sets, src: Bytes, dst: Bytes, member: Bytes): Sets {
    if member in MembersAt(r, src) then AddTo(RemoveFrom(r, src, member), dst, member) else r
  }

  /** `after` is `before` with `member` in the set of `dst` instead of that of `src`. */
  ghost predicate Moved(before: Sets, src: Bytes, dst: Bytes, member: Bytes, after: Sets) {
    && member in MembersAt(before, src) && member in MembersAt(after, dst)
    && (src != dst ==> member !in MembersAt(after, src))
    && (forall k, m {:trigger m in MembersAt(after, k)} | k !in {src, dst} || m != member ::
          m in MembersAt(after, k) <==> m in MembersAt(before, k))
    && after.Keys == before.Keys + {dst}
  }

  lemma MoveMoves(r: Sets, src: Bytes, dst: Bytes, member: Bytes)
    requires member in MembersAt(r, src)
    ensures Moved(r, src, dst, member, Move(r, src, dst, member))
  {
    var q := RemoveFrom(r, src, member);
    AddedTo(q, dst, member);
    forall k ensures MembersAt(q, k) == if k == src then MembersAt(r, src) - {member} else MembersAt(r, k) {
      RemovedFrom(r, src, member, k);
    }
  }

  // ---- replay ----

  function SetEntry(key: Bytes, value: Bytes, extra: Bytes, mark: nat, now: nat): Entry
    requires mark < 128
  {
    Entry(key, value, extra, StateOf(TYPE_SET, mark), now)
  }

  /** buildSetIndex, without expiry. */
  function BuildSetIndex(r: Sets, e: Entry): Sets {
    var mark := GetMark(e.state);
    if mark == SADD then AddTo(r, e.key, e.value)
    else if mark == SREM then RemoveFrom(r, e.key, e.value)
    else if mark == SMOVE then Move(r, e.key, e.extra, e.value)
    else if mark == SCLEAR then r - {e.key}
    else r
  }

  function ReplaySets(log: seq<Entry>): Sets {
    if log == [] then map[] else BuildSetIndex(ReplaySets(log[..|log| - 1]), log[|log| - 1])
  }

  lemma ReplaySnoc(log: seq<Entry>, e: Entry)
    ensures ReplaySets(log + [e]) == BuildSetIndex(ReplaySets(log), e)
  {
    assert (log + [e])[..|log|] == log;
  }

  lemma MarkOf(mark: nat)
    requires mark < 128
    ensures GetMark(StateOf(TYPE_SET, mark)) == mark
  {
    StateRoundTrip(TYPE_SET, mark);
  }

  // ---- each operation, up to empty sets ----

  lemma AddAgrees(r: Sets, q: Sets, key: Bytes, member: Bytes)
    requires Same(r, q)
    ensures Same(AddTo(r, key, member), AddTo(q, key, member))
    ensures member in MembersAt(q, key) ==> Same(r, AddTo(q, key, member))
  {
    AddedTo(r, key, member);
    AddedTo(q, key, member);
    var r', q' := AddTo(r, key, member), AddTo(q, key, member);
    forall k {:trigger MembersAt(r', k)} {:trigger MembersAt(q', k)} ensures MembersAt(r', k) == MembersAt(q', k) {
      assert MembersAt(r, k) == MembersAt(q, k) && MembersAt(r, key) == MembersAt(q, key);
    }
    if member in MembersAt(q, key) {
      assert MembersAt(q, key) + {member} == MembersAt(q, key);
      forall k {:trigger MembersAt(r, k)} {:trigger MembersAt(q', k)} ensures MembersAt(r, k) == MembersAt(q', k) {
        assert MembersAt(r, k) == MembersAt(q, k);
      }
    }
  }

  lemma RemoveAgrees(r: Sets, q: Sets, key: Bytes, member: Bytes)
    requires Same(r, q)
    ensures Same(RemoveFrom(r, key, member), RemoveFrom(q, key, member))
  {
    var r', q' := RemoveFrom(r, key, member), RemoveFrom(q, key, member);
    forall k {:trigger MembersAt(r', k)} {:trigger MembersAt(q', k)} ensures MembersAt(r', k) == MembersAt(q', k) {
      assert MembersAt(r, k) == MembersAt(q, k) && MembersAt(r, key) == MembersAt(q, key);
      RemovedFrom(r, key, member, k);
      RemovedFrom(q, key, member, k);
    }
  }

  lemma RemovedFrom(r: Sets, key: Bytes, member: Bytes, k: Bytes)
    ensures MembersAt(RemoveFrom(r, key, member), k) ==
            if k == key then MembersAt(r, key) - {member} else MembersAt(r, k)
  {
  }

  /** A pop is replayed as a removal. */
  lemma PopAgrees(r: Sets, q: Sets, key: Bytes, member: Bytes)
    requires Same(r, q)
    ensures Same(RemoveFrom(r, key, member), PopFrom(q, key, member))
  {
    assert MembersAt(r, key) == MembersAt(q, key);
    var r', q' := RemoveFrom(r, key, member), PopFrom(q, key, member);
    assert MembersAt(r', key) == MembersAt(r, key) - {member};
    assert MembersAt(q', key) == MembersAt(q, key) - {member};
    forall k {:trigger MembersAt(r', k)} {:trigger MembersAt(q', k)} ensures MembersAt(r', k) == MembersAt(q', k) {
      if k != key { assert MembersAt(r, k) == MembersAt(q, k); }
    }
  }

  lemma MoveAgrees(r: Sets, q: Sets, src: Bytes, dst: Bytes, member: Bytes)
    requires Same(r, q)
    ensures Same(Move(r, src, dst, member), Move(q, src, dst, member))
  {
    assert MembersAt(r, src) == MembersAt(q, src);
    RemoveAgrees(r, q, src, member);
    AddAgrees(RemoveFrom(r, src, member), RemoveFrom(q, src, member), dst, member);
  }

  lemma ClearAgrees(r: Sets, q: Sets, key: Bytes)
    requires Same(r, q)
    ensures Same(r - {key}, q - {key})
    ensures key !in q ==> Same(r, q)
  {
    forall k {:trigger MembersAt(r - {key}, k)} {:trigger MembersAt(q - {key}, k)}
      ensures MembersAt(r - {key}, k) == MembersAt(q - {key}, k)
    {
      assert MembersAt(r, k) == MembersAt(q, k);
    }
  }

  // ---- the commands ----

  class SetStore {
    var record: Sets
    var log: seq<Entry>
    const maxKeySize: nat
    const maxValueSize: nat

    /** Replaying the log gives the members. */
    ghost predicate Valid()
      reads this
    {
      Same(ReplaySets(log), record)
    }

    constructor (maxKeySize: nat, maxValueSize: nat)
      ensures Valid() && record == map[] && log == []
    {
      this.maxKeySize, this.maxValueSize := maxKeySize, maxValueSize;
      record, log := map[], [];
    }

    /** CheckKeyValue. */
    predicate Accepts(key: Bytes, value: Bytes) {
      key != [] && |key| <= maxKeySize && |value| <= maxValueSize
    }

    method Store(e: Entry)
      modifies `log
      ensures log == old(log) + [e]
    {
      log := log + [e];
    }

    /** SAdd: a member already there is not logged again. */
    method SAdd(key: Bytes, member: Bytes, now: nat) returns (ok: bool, count: nat)
      requires Valid()
      modifies this
      ensures Valid() && ok == Accepts(key, member)
      ensures ok <==> 0 < |key| <= maxKeySize && |member| <= maxValueSize
      ensures record == if ok then AddTo(old(record), key, member) else old(record)
      ensures ok ==> MembersAt(record, key) == MembersAt(old(record), key) + {member} && count == |record[key]|
      ensures forall k | k != key :: MembersAt(record, k) == MembersAt(old(record), k)
      ensures log == old(log)
              + if ok && member !in MembersAt(old(record), key) then [SetEntry(key, member, [], SADD, now)] else []
    {
      if !Accepts(key, member) {
        return false, 0;
      }
      var isMember := key in record && member in record[key];
      AddAgrees(ReplaySets(log), record, key, member);
      if key !in record {
        record := record[key := {}];
      }
      record := record[key := record[key] + {member}];
      assert record == AddTo(old(record), key, member);
      count := |record[key]|;
      ok := true;
      if isMember {
        return;
      }
      var e := SetEntry(key, member, [], SADD, now);
      MarkOf(SADD);
      ReplaySnoc(log, e);
      Store(e);
    }

    /** SPop: any member goes, and is logged as removed. A pop on a set that is there and empty is not defined. */
    method SPop(key: Bytes, val0: Bytes, now: nat) returns (ok: bool, suc: bool, val: Bytes)
      requires Valid() && (key in record ==> record[key] != {})
      modifies this
      ensures Valid() && ok == Accepts(key, [])
      ensures suc <==> ok && key in old(record)
      ensures suc ==> val in old(record)[key] && MembersAt(record, key) == old(record)[key] - {val}
      ensures suc ==> (key in record <==> old(record)[key] != {val})
      ensures forall k | k != key || !suc :: MembersAt(record, k) == MembersAt(old(record), k)
      ensures record == if ok then PopFrom(old(record), key, val) else old(record)
      ensures log == old(log) + if ok then [SetEntry(key, val, [], SREM, now)] else []
    {
      if !Accepts(key, []) {
        return false, false, val0;
      }
      ok, suc, val := true, false, val0;
      if key in record {
        val :| val in record[key];
        suc := true;
        record := record[key := record[key] - {val}];
        if record[key] == {} {
          record := record - {key};
        }
      }
      assert record == PopFrom(old(record), key, val);
      PopAgrees(ReplaySets(log), old(record), key, val);
      var e := SetEntry(key, val, [], SREM, now);
      MarkOf(SREM);
      ReplaySnoc(log, e);
      Store(e);
    }

    method SRem(key: Bytes, member: Bytes, now: nat) returns (ok: bool, suc: bool)
      requires Valid()
      modifies this
      ensures Valid() && ok == Accepts(key, member)
      ensures suc <==> ok && member in MembersAt(old(record), key)
      ensures suc ==> key in record && MembersAt(record, key) == MembersAt(old(record), key) - {member}
      ensures forall k | k != key || !suc :: MembersAt(record, k) == MembersAt(old(record), k)
      ensures record == if ok then RemoveFrom(old(record), key, member) else old(record)
      ensures log == old(log) + if ok then [SetEntry(key, member, [], SREM, now)] else []
    {
      hide Same;
      if !Accepts(key, member) {
        return false, false;
      }
      RemoveAgrees(ReplaySets(log), record, key, member);
      ok, suc := true, key in record && member in record[key];
      if suc {
        record := record[key := record[key] - {member}];
      }
      assert record == RemoveFrom(old(record), key, member);
      forall k ensures MembersAt(record, k) == MembersAt(old(record), k) - if k == key then {member} else {} {
        RemovedFrom(old(record), key, member, k);
      }
      var e := SetEntry(key, member, [], SREM, now);
      MarkOf(SREM);
      ReplaySnoc(log, e);
      Store(e);
    }

    method SMove(src: Bytes, dst: Bytes, member: Bytes, now: nat) returns (suc: bool)
      requires Valid()
      modifies this
      ensures Valid()
      ensures var ok := Accepts(src, []) && Accepts(dst, member);
              (suc <==> ok && member in MembersAt(old(record), src)) && record ==
                  if ok then Move(old(record), src, dst, member) else old(record)
      ensures suc ==> Moved(old(record), src, dst, member, record)
      ensures !suc ==> record == old(record)
      ensures log == old(log)
              + if Accepts(src, []) && Accepts(dst, member) then [SetEntry(src, member, dst, SMOVE, now)] else []
    {
      if !Accepts(src, []) || !Accepts(dst, member) {
        return false;
      }
      MoveAgrees(ReplaySets(log), record, src, dst, member);
      suc := src in record && member in record[src];
      if suc {
        record := record[src := record[src] - {member}];
        if dst !in record {
          record := record[dst := {}];
        }
        record := record[dst := record[dst] + {member}];
      }
      assert record == Move(old(record), src, dst, member);
      if suc { MoveMoves(old(record), src, dst, member); }
      var e := SetEntry(src, member, dst, SMOVE, now);
      MarkOf(SMOVE);
      ReplaySnoc(log, e);
      Store(e);
    }

    /** SClear: a missing set is not logged. */
    method SClear(key: Bytes, now: nat) returns (count: nat)
      requires Valid()
      modifies this
      ensures Valid() && record == if Accepts(key, []) then old(record) - {key} else old(record)
      ensures count == if Accepts(key, []) then |MembersAt(old(record), key)| else 0
      ensures log == old(log)
              + if Accepts(key, []) && key in old(record) then [SetEntry(key, [], [], SCLEAR, now)] else []
    {
      if !Accepts(key, []) || key !in record {
        return 0;
      }
      ClearAgrees(ReplaySets(log), record, key);
      var e := SetEntry(key, [], [], SCLEAR, now);
      MarkOf(SCLEAR);
      ReplaySnoc(log, e);
      Store(e);
      count := |record[key]|;
      record := record - {key};
    }
  }

  // ---- dump ----

  /** dumpSet: every member of every set, in any order. */
  method DumpSet(record: Sets, now: nat) returns (entries: seq<Entry>)
    ensures Same(ReplaySets(entries), record)
  {
    entries := [];
    var rest := record.Keys;
    while rest != {}
      invariant rest <= record.Keys && Dumped(ReplaySets(entries), record, rest)
      decreases |rest|
    {
      var key :| key in rest;
      entries := DumpOne(entries, key, record[key], now);
      rest := rest - {key};
    }
  }

  ghost predicate Dumped(r: Sets, record: Sets, rest: set<Bytes>) {
    forall key {:trigger MembersAt(r, key)} :: MembersAt(r, key) == if key in rest then {} else MembersAt(record, key)
  }

  method DumpOne(before: seq<Entry>, key: Bytes, members: set<Bytes>, now: nat) returns (entries: seq<Entry>)
    requires MembersAt(ReplaySets(before), key) == {}
    ensures forall k {:trigger MembersAt(ReplaySets(entries), k)} ::
              MembersAt(ReplaySets(entries), k) == if k == key then members else MembersAt(ReplaySets(before), k)
  {
    entries := before;
    var rest := members;
    while rest != {}
      invariant rest <= members
      invariant forall k {:trigger MembersAt(ReplaySets(entries), k)} ::
                  MembersAt(ReplaySets(entries), k) == if k == key then members - rest
                      else MembersAt(ReplaySets(before), k)
      decreases |rest|
    {
      var m :| m in rest;
      var e := SetEntry(key, m, [], SADD, now);
      MarkOf(SADD);
      ReplaySnoc(entries, e);
      AddedTo(ReplaySets(entries), key, m);
      entries := entries + [e];
      rest := rest - {m};
    }
  }

  lemma AddedTo(r: Sets, key: Bytes, member: Bytes)
    ensures forall k {:trigger MembersAt(AddTo(r, key, member), k)} ::
              MembersAt(AddTo(r, key, member), k) == if k == key then MembersAt(r, key) + {member} else MembersAt(r, k)
  {
  }
}
