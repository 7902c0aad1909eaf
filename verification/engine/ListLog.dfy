/** List commands as a change of the lists and a record in the log, and the
    replay of those records. */
module ListLog {
  import opened Coding
  import opened Entries
  import opened Text

  type Lists = map<Bytes, seq<Bytes>>

  const TYPE_LIST: nat := 1
  const LPUSH: nat := 4
  const RPUSH: nat := 5
  const LPOP: nat := 6
  const RPOP: nat := 7
  const LINSERT: nat := 9
  const LSET: nat := 10
  const LCLEAR: nat := 12

  /** The bytes of "key". */
  const KEY: Bytes := [107, 101, 121]

  datatype InsertOption = Before | After

  function OptionNumber(option: InsertOption): nat { if option.Before? then 1 else 2 }

  /** The cast back: only 1 means before. */
  function NumberOption(n: nat): InsertOption { if n == 1 then Before else After }

  // ---- the list type ----

  function ListAt(r: Lists, key: Bytes): seq<Bytes> { if key in r then r[key] else [] }

  /** A push to a missing list first makes an empty list, under the name "key". */
  function Touched(r: Lists, key: Bytes): Lists {
    if key in r || KEY in r then r else r[KEY := []]
  }

  function PushFront(r: Lists, key: Bytes, val: Bytes): Lists { Touched(r, key)[key := [val] + ListAt(r, key)] }

  function PushBack(r: Lists, key: Bytes, val: Bytes): Lists { Touched(r, key)[key := ListAt(r, key) + [val]] }

  /** A list that loses its last element goes. */
  function Keep(r: Lists, key: Bytes, list: seq<Bytes>): Lists { if list == [] then r - {key} else r[key := list] }

  function PopFront(r: Lists, key: Bytes): Lists
    requires key in r ==> r[key] != []
  {
    if key !in r then r else Keep(r, key, r[key][1..])
  }

  function PopBack(r: Lists, key: Bytes): Lists
    requires key in r ==> r[key] != []
  {
    if key !in r then r else Keep(r, key, r[key][..|r[key]| - 1])
  }

  /** First place of `pivot`, or the length. */
  function PlaceOf(list: seq<Bytes>, pivot: Bytes): (i: nat)
    ensures i <= |list| && (i < |list| ==> list[i] == pivot)
    ensures forall j :: 0 <= j < i ==> list[j] != pivot
  {
    PlaceFrom(list, pivot, 0)
  }

  function PlaceFrom(list: seq<Bytes>, pivot: Bytes, k: nat): (i: nat)
    requires k <= |list|
    ensures k <= i <= |list| && (i < |list| ==> list[i] == pivot)
    ensures forall j :: k <= j < i ==> list[j] != pivot
    decreases |list| - k
  {
    if k == |list| || list[k] == pivot then k else PlaceFrom(list, pivot, k + 1)
  }

  /** A missing list comes into being, empty, by being looked through. */
  function InsertAtPivot(r: Lists, key: Bytes, option: InsertOption, pivot: Bytes, val: Bytes): Lists {
    var list := ListAt(r, key);
    var i := PlaceOf(list, pivot);
    if i == |list| then r[key := list]
    else if option.Before? then r[key := list[..i] + [val] + list[i..]]
    else r[key := list[..i + 1] + [val] + list[i + 1..]]
  }

  /** `after` is `before` with `val` at the first `pivot`, on the side asked for. */
  ghost predicate Inserted(before: seq<Bytes>, option: InsertOption, pivot: Bytes, val: Bytes, after: seq<Bytes>) {
    if pivot !in before then after == before
    else
      exists i | 0 <= i < |before| && before[i] == pivot && pivot !in before[..i] ::
        after == before[..i] + (if option.Before? then [val, pivot] else [pivot, val]) + before[i + 1..]
  }

  function SetAt(r: Lists, key: Bytes, index: int, val: Bytes): Lists {
    if key in r && 0 <= index < |r[key]| then r[key := r[key][index := val]] else r
  }

  /** A pop undoes the push at its own end. */
  lemma PushThenPop(r: Lists, key: Bytes, val: Bytes)
    ensures SameLists(PopFront(PushFront(r, key, val), key), r) && SameLists(PopBack(PushBack(r, key, val), key), r)
  {
    assert ([val] + ListAt(r, key))[1..] == ListAt(r, key);
    assert (ListAt(r, key) + [val])[..|ListAt(r, key)|] == ListAt(r, key);
  }

  // ---- replay ----

  function ListEntry(key: Bytes, value: Bytes, extra: Bytes, mark: nat, now: nat): Entry
    requires mark < 128
  {
    Entry(key, value, extra, StateOf(TYPE_LIST, mark), now)
  }

  /** What LInsert logs beside the value. */
  function InsertExtra(pivot: Bytes, option: InsertOption): Bytes {
    pivot + SEPARATOR + Decimal(OptionNumber(option))
  }

  /** The digit is 1 for before and 2 for after. */
  lemma ExtraIs(pivot: Bytes, option: InsertOption)
    ensures InsertExtra(pivot, option) == pivot + SEPARATOR + (if option.Before? then [49] else [50])
  {
  }

  /** buildListIndex for the commands here; None where it throws, or takes from an empty list. */
  function BuildListIndex(r: Lists, e: Entry): Option<Lists> {
    var mark := GetMark(e.state);
    if mark == LPUSH then Some(PushFront(r, e.key, e.value))
    else if mark == RPUSH then Some(PushBack(r, e.key, e.value))
    else if mark == LPOP then (if e.key in r && r[e.key] == [] then None else Some(PopFront(r, e.key)))
    else if mark == RPOP then (if e.key in r && r[e.key] == [] then None else Some(PopBack(r, e.key)))
    else if mark == LINSERT then
      var pieces := Split(e.extra, SEPARATOR);
      if |pieces| < 2 then None
      else
        match Stoi(pieces[1])
        case None => None
        case Some(n) => Some(InsertAtPivot(r, e.key, NumberOption(n), pieces[0], e.value))
    else if mark == LSET then
      match Stoi(e.extra)
      case None => None
      case Some(n) => Some(SetAt(r, e.key, n, e.value))
    else if mark == LCLEAR then Some(r - {e.key})
    else Some(r)
  }

  function ReplayLists(log: seq<Entry>): Option<Lists> {
    if log == [] then Some(map[])
    else
      match ReplayLists(log[..|log| - 1])
      case None => None
      case Some(r) => BuildListIndex(r, log[|log| - 1])
  }

  lemma ReplaySnoc(log: seq<Entry>, e: Entry)
    ensures ReplayLists(log + [e]) == match ReplayLists(log) case None => None case Some(r) => BuildListIndex(r, e)
  {
    assert (log + [e])[..|log|] == log;
  }

  lemma MarkOf(mark: nat)
    requires mark < 128
    ensures GetMark(StateOf(TYPE_LIST, mark)) == mark
  {
    StateRoundTrip(TYPE_LIST, mark);
  }

  /** An insert's record replays as the insert, if the pivot holds no separator. */
  lemma InsertReplays(r: Lists, key: Bytes, option: InsertOption, pivot: Bytes, val: Bytes, now: nat)
    requires Find(pivot, SEPARATOR) < 0
    ensures BuildListIndex(r, ListEntry(key, val, InsertExtra(pivot, option), LINSERT, now))
         == Some(InsertAtPivot(r, key, option, pivot, val))
  {
    hide InsertAtPivot, Split;
    MarkOf(LINSERT);
    var digit: byte := 48 + OptionNumber(option);
    assert Decimal(OptionNumber(option)) == [digit];
    SplitPivot(pivot, digit);
    ZeroAndDigit(digit);
  }

  /** stoi("01") is 1. */
  lemma ZeroAndDigit(digit: byte)
    requires IsDigit(digit)
    ensures Stoi([48, digit]) == Some(digit as int - 48)
  {
    var s := [48, digit as byte];
    assert LeadingDigits(s) == 2;
    assert ValueOf(s, 1) == 10 * ValueOf(s, 0) + (s[0] as int - 48);
  }

  /** With a separator inside, replay looks for another pivot. */
  lemma InsertDecodesIff(option: InsertOption, pivot: Bytes)
    ensures var pieces := Split(InsertExtra(pivot, option), SEPARATOR);
            pieces != [] && (pieces[0] == pivot <==> Find(pivot, SEPARATOR) < 0)
  {
    var digit: byte := 48 + OptionNumber(option);
    assert Decimal(OptionNumber(option)) == [digit];
    FirstPieceIff(pivot, digit);
  }

  /** An insert's record replays as the insert on whatever lists exactly if the
      pivot holds no separator: otherwise the list of the pivot alone tells them apart. */
  lemma InsertReplaysIff(key: Bytes, option: InsertOption, pivot: Bytes, val: Bytes, now: nat)
    ensures (forall r: Lists ::
               BuildListIndex(r, ListEntry(key, val, InsertExtra(pivot, option), LINSERT, now))
               == Some(InsertAtPivot(r, key, option, pivot, val)))
            <==> Find(pivot, SEPARATOR) < 0
  {
    if Find(pivot, SEPARATOR) < 0 {
      forall r: Lists
        ensures BuildListIndex(r, ListEntry(key, val, InsertExtra(pivot, option), LINSERT, now))
             == Some(InsertAtPivot(r, key, option, pivot, val))
      {
        InsertReplays(r, key, option, pivot, val, now);
      }
    } else {
      InsertMisreplays(key, option, pivot, val, now);
    }
  }

  lemma InsertMisreplays(key: Bytes, option: InsertOption, pivot: Bytes, val: Bytes, now: nat)
    requires Find(pivot, SEPARATOR) >= 0
    ensures BuildListIndex(map[key := [pivot]], ListEntry(key, val, InsertExtra(pivot, option), LINSERT, now))
         != Some(InsertAtPivot(map[key := [pivot]], key, option, pivot, val))
  {
    hide Split, InsertExtra;
    MarkOf(LINSERT);
    InsertDecodesIff(option, pivot);
    var r: Lists := map[key := [pivot]];
    var pieces := Split(InsertExtra(pivot, option), SEPARATOR);
    PlaceIs([pivot], pivot, 0);
    PlaceIs([pivot], pieces[0], 1);
    assert InsertAtPivot(r, key, option, pivot, val)[key] != [pivot];
  }

  lemma SetReplays(r: Lists, key: Bytes, index: nat, val: Bytes, now: nat)
    ensures BuildListIndex(r, ListEntry(key, val, Decimal(index), LSET, now)) == Some(SetAt(r, key, index, val))
  {
    MarkOf(LSET);
    DecimalRoundTrip(index);
  }

  // ---- the commands ----

  class ListStore {
    var record: Lists
    var log: seq<Entry>
    const maxKeySize: nat
    const maxValueSize: nat

    /** Replaying the log gives the lists. */
    ghost predicate Valid()
      reads this
    {
      ReplayLists(log) == Some(record)
    }

    constructor (maxKeySize: nat, maxValueSize: nat)
      ensures Valid() && record == map[] && log == []
    {
      this.maxKeySize, this.maxValueSize := maxKeySize, maxValueSize;
      record, log := map[], [];
    }

    /** CheckKeyValue. */
    predicate Accepts(key: Bytes, value: Bytes) {
      key != [] && |key| <= maxKeySize && |value| <= maxValueSize
    }

    method Store(e: Entry)
      modifies `log
      ensures log == old(log) + [e]
    {
      log := log + [e];
    }

    method LPush(key: Bytes, value: Bytes, now: nat) returns (ok: bool, length: nat)
      requires Valid()
      modifies this
      ensures Valid() && ok == Accepts(key, value)
      ensures ok <==> 0 < |key| <= maxKeySize && |value| <= maxValueSize
      ensures record == if ok then PushFront(old(record), key, value) else old(record)
      ensures ok ==> ListAt(record, key) == [value] + ListAt(old(record), key) && length == |record[key]|
      ensures ok ==> record.Keys == old(record).Keys + {key} + (if key in old(record) then {} else {KEY})
      ensures forall k | k != key :: ListAt(record, k) == ListAt(old(record), k)
      ensures log == old(log) + if ok then [ListEntry(key, value, [], LPUSH, now)] else []
    {
      if !Accepts(key, value) {
        return false, 0;
      }
      if key !in record && KEY !in record {
        record := record[KEY := []];
      }
      record := record[key := [value] + if key in record then record[key] else []];
      var e := ListEntry(key, value, [], LPUSH, now);
      MarkOf(LPUSH);
      ReplaySnoc(log, e);
      Store(e);
      return true, |record[key]|;
    }

    method RPush(key: Bytes, value: Bytes, now: nat) returns (ok: bool, length: nat)
      requires Valid()
      modifies this
      ensures Valid() && ok == Accepts(key, value)
      ensures record == if ok then PushBack(old(record), key, value) else old(record)
      ensures ok ==> ListAt(record, key) == ListAt(old(record), key) + [value] && length == |record[key]|
      ensures ok ==> record.Keys == old(record).Keys + {key} + (if key in old(record) then {} else {KEY})
      ensures forall k | k != key :: ListAt(record, k) == ListAt(old(record), k)
      ensures log == old(log) + if ok then [ListEntry(key, value, [], RPUSH, now)] else []
    {
      if !Accepts(key, value) {
        return false, 0;
      }
      if key !in record && KEY !in record {
        record := record[KEY := []];
      }
      record := record[key := (if key in record then record[key] else []) + [value]];
      var e := ListEntry(key, value, [], RPUSH, now);
      MarkOf(RPUSH);
      ReplaySnoc(log, e);
      Store(e);
      return true, |record[key]|;
    }

    /** A pop on a list that is there and empty is not defined. */
    method LPop(key: Bytes, now: nat) returns (ok: bool, suc: bool, val: Bytes)
      requires Valid() && (key in record ==> record[key] != [])
      modifies this
      ensures Valid() && ok == Accepts(key, [])
      ensures record == if ok then PopFront(old(record), key) else old(record)
      ensures (suc <==> ok && key in old(record)) && (suc ==> old(record)[key] == [val] + ListAt(record, key))
      ensures forall k | k != key || !suc :: ListAt(record, k) == ListAt(old(record), k)
      ensures suc ==> (key in record <==> |old(record)[key]| > 1)
      ensures log == old(log) + if ok then [ListEntry(key, val, [], LPOP, now)] else []
    {
      if !Accepts(key, []) {
        return false, false, [];
      }
      ok, suc, val := true, false, [];
      if key in record {
        val := record[key][0];
        suc := true;
        record := record[key := record[key][1..]];
        if record[key] == [] {
          record := record - {key};
        }
      }
      assert record == PopFront(old(record), key);
      var e := ListEntry(key, val, [], LPOP, now);
      MarkOf(LPOP);
      ReplaySnoc(log, e);
      Store(e);
    }

    method RPop(key: Bytes, now: nat) returns (ok: bool, suc: bool, val: Bytes)
      requires Valid() && (key in record ==> record[key] != [])
      modifies this
      ensures Valid() && ok == Accepts(key, [])
      ensures record == if ok then PopBack(old(record), key) else old(record)
      ensures (suc <==> ok && key in old(record)) && (suc ==> old(record)[key] == ListAt(record, key) + [val])
      ensures forall k | k != key || !suc :: ListAt(record, k) == ListAt(old(record), k)
      ensures suc ==> (key in record <==> |old(record)[key]| > 1)
      ensures log == old(log) + if ok then [ListEntry(key, val, [], RPOP, now)] else []
    {
      if !Accepts(key, []) {
        return false, false, [];
      }
      ok, suc, val := true, false, [];
      if key in record {
        val := record[key][|record[key]| - 1];
        suc := true;
        record := record[key := record[key][..|record[key]| - 1]];
        if record[key] == [] {
          record := record - {key};
        }
      }
      assert record == PopBack(old(record), key);
      var e := ListEntry(key, val, [], RPOP, now);
      MarkOf(RPOP);
      ReplaySnoc(log, e);
      Store(e);
    }

    /** LInsert. The log still replays exactly if this record does, as it always does if the pivot holds no
        separator. */
    method LInsert(key: Bytes, option: InsertOption, pivot: Bytes, val: Bytes, now: nat) returns (ok: bool, count: int)
      requires Valid()
      modifies this
      ensures ok == (Accepts(key, pivot) && Accepts(key, val))
      ensures record == if ok then InsertAtPivot(old(record), key, option, pivot, val) else old(record)
      ensures ok ==> Inserted(ListAt(old(record), key), option, pivot, val, ListAt(record, key))
      ensures forall k | k != key :: ListAt(record, k) == ListAt(old(record), k)
      ensures ok ==> record.Keys == old(record).Keys + {key}
      ensures ok ==> count == if pivot in ListAt(old(record), key) then |record[key]| else -1
      ensures ok ==> log == old(log) + [ListEntry(key, val, InsertExtra(pivot, option), LINSERT, now)]
      ensures ok ==> log[|log| - 1].extra == pivot + SEPARATOR + (if option.Before? then [49] else [50])
      ensures ok ==> (Valid() <==> BuildListIndex(old(record), log[|log| - 1]) == Some(record))
      ensures Find(pivot, SEPARATOR) < 0 || !ok ==> Valid()
    {
      hide BuildListIndex, Inserted, InsertExtra, Find;
      if !Accepts(key, pivot) || !Accepts(key, val) {
        return false, 0;
      }
      ok := true;
      if key !in record {
        record := record[key := []];
      }
      var list, it := record[key], 0;
      while it < |list|
        invariant it <= |list| && forall j :: 0 <= j < it ==> list[j] != pivot
      {
        if list[it] == pivot {
          break;
        }
        it := it + 1;
      }
      PlaceIs(list, pivot, it);
      if it == |list| {
        count := -1;
      } else {
        if option.Before? {
          record := record[key := list[..it] + [val] + list[it..]];
        } else {
          it := it + 1;
          record := record[key := list[..it] + [val] + list[it..]];
        }
        count := |record[key]|;
      }
      assert record == InsertAtPivot(old(record), key, option, pivot, val);
      InsertedAt(old(record), key, option, pivot, val);
      ExtraIs(pivot, option);
      var e := ListEntry(key, val, InsertExtra(pivot, option), LINSERT, now);
      if Find(pivot, SEPARATOR) < 0 { InsertReplays(old(record), key, option, pivot, val, now); }
      ReplaySnoc(log, e);
      Store(e);
    }

    /** LSet: only a change is logged. */
    method LSet(key: Bytes, index: int, value: Bytes, now: nat) returns (ok: bool, suc: bool)
      requires Valid()
      modifies this
      ensures Valid() && ok == Accepts(key, value)
      ensures suc <==> ok && key in old(record) && 0 <= index < |old(record)[key]|
      ensures record == if suc then old(record)[key := old(record)[key][index := value]] else old(record)
      ensures log == old(log) + if suc then [ListEntry(key, value, Decimal(index), LSET, now)] else []
    {
      if !Accepts(key, value) {
        return false, false;
      }
      if key !in record || index < 0 || index >= |record[key]| {
        return true, false;
      }
      var it, count := 0, 0;
      while count < index
        invariant 0 <= it == count <= index
      {
        count := count + 1;
        it := it + 1;
      }
      record := record[key := record[key][it := value]];
      var e := ListEntry(key, value, Decimal(index), LSET, now);
      SetReplays(old(record), key, index, value, now);
      ReplaySnoc(log, e);
      Store(e);
      return true, true;
    }

    method LClear(key: Bytes, now: nat) returns (ok: bool, count: nat)
      requires Valid()
      modifies this
      ensures Valid() && ok == Accepts(key, [])
      ensures record == (if ok then old(record) - {key} else old(record)) && count ==
              if ok then |ListAt(old(record), key)| else 0
      ensures log == old(log) + if ok then [ListEntry(key, [], [], LCLEAR, now)] else []
    {
      if !Accepts(key, []) {
        return false, 0;
      }
      ok := true;
      count := if key in record then |record[key]| else 0;
      record := record - {key};
      var e := ListEntry(key, [], [], LCLEAR, now);
      MarkOf(LCLEAR);
      ReplaySnoc(log, e);
      Store(e);
    }
  }

  /** The insert by place is the insert at the pivot. */
  lemma InsertedAt(r: Lists, key: Bytes, option: InsertOption, pivot: Bytes, val: Bytes)
    ensures var q := InsertAtPivot(r, key, option, pivot, val);
            && Inserted(ListAt(r, key), option, pivot, val, ListAt(q, key))
            && q.Keys == r.Keys + {key} && forall k | k != key :: ListAt(q, k) == ListAt(r, k)
  {
    var list := ListAt(r, key);
    var i := PlaceOf(list, pivot);
    if i < |list| {
      assert list[..i] + [val] + list[i..] == list[..i] + [val, pivot] + list[i + 1..];
      assert list[..i + 1] + [val] + list[i + 1..] == list[..i] + [pivot, val] + list[i + 1..];
    }
  }

  lemma PlaceIs(list: seq<Bytes>, pivot: Bytes, i: nat)
    requires i <= |list| && (i < |list| ==> list[i] == pivot) && forall j :: 0 <= j < i ==> list[j] != pivot
    ensures PlaceOf(list, pivot) == i && (i < |list| <==> pivot in list)
  {
  }

  // ---- dump ----

  /** Empty lists aside. */
  ghost predicate SameLists(r: Lists, q: Lists) {
    forall key {:trigger ListAt(r, key)} :: ListAt(r, key) == ListAt(q, key)
  }

  /** dumpList: each list's elements as pushes at the back, whichever key comes first. */
  method DumpList(record: Lists, now: nat) returns (entries: seq<Entry>)
    ensures ReplayLists(entries).Some? && SameLists(ReplayLists(entries).value, record)
  {
    entries := [];
    var rest := record.Keys;
    while rest != {}
      invariant rest <= record.Keys && ReplayLists(entries).Some?
      invariant Dumped(ReplayLists(entries).value, record, rest)
      decreases |rest|
    {
      var key :| key in rest;
      entries := DumpOne(entries, key, record[key], now);
      rest := rest - {key};
    }
  }

  /** The lists outside `rest` have been dumped, the others not. */
  ghost predicate Dumped(r: Lists, record: Lists, rest: set<Bytes>) {
    forall key {:trigger ListAt(r, key)} :: ListAt(r, key) == if key in rest then [] else ListAt(record, key)
  }

  method DumpOne(before: seq<Entry>, key: Bytes, list: seq<Bytes>, now: nat) returns (entries: seq<Entry>)
    requires ReplayLists(before).Some? && ListAt(ReplayLists(before).value, key) == []
    ensures ReplayLists(entries).Some?
    ensures forall k {:trigger ListAt(ReplayLists(entries).value, k)} ::
              ListAt(ReplayLists(entries).value, k) == if k == key then list else ListAt(ReplayLists(before).value, k)
  {
    entries := before;
    var i := 0;
    while i < |list|
      invariant 0 <= i <= |list| && ReplayLists(entries).Some?
      invariant forall k {:trigger ListAt(ReplayLists(entries).value, k)} ::
                  ListAt(ReplayLists(entries).value, k) == if k == key then list[..i]
                      else ListAt(ReplayLists(before).value, k)
    {
      var e := ListEntry(key, list[i], [], RPUSH, now);
      MarkOf(RPUSH);
      ReplaySnoc(entries, e);
      PushedBack(ReplayLists(entries).value, key, list[i]);
      entries := entries + [e];
      i := i + 1;
    }
  }

  lemma PushedBack(r: Lists, key: Bytes, val: Bytes)
    ensures forall k {:trigger ListAt(PushBack(r, key, val), k)} ::
              ListAt(PushBack(r, key, val), k) == if k == key then ListAt(r, key) + [val] else ListAt(r, k)
  {
  }

  lemma PushedFront(r: Lists, key: Bytes, val: Bytes)
    ensures forall k {:trigger ListAt(PushFront(r, key, val), k)} ::
              ListAt(PushFront(r, key, val), k) == if k == key then [val] + ListAt(r, key) else ListAt(r, k)
  {
  }
}
