/** A file whose last record was cut off: what it still holds, and what becomes
    of a record stored behind the remains. */
module TornTails {
  import opened Coding
  import opened Entries
  import opened DBFiles
  import opened Logs
  import opened Slices

  /** How many records lie wholly in the first `n` bytes. */
  function Inside(es: seq<Entry>, n: nat): (m: nat)
    ensures m <= |es|
  {
    Reached(es, n, Start(es, |es|) + 1)
  }

  lemma InsideIs(es: seq<Entry>, n: nat, k: nat)
    requires k < |es|
    ensures k < Inside(es, n) <==> Start(es, k + 1) <= n
  {
    ReachedIsInside(es, n, Start(es, |es|) + 1, k);
    StartGrows(es, k, |es|);
  }

  /** They end at or before byte `n`, and the next one, if there is one, behind it. */
  lemma InsideEnds(es: seq<Entry>, n: nat)
    ensures Start(es, Inside(es, n)) <= n
    ensures Inside(es, n) < |es| ==> Start(es, Inside(es, n) + 1) > n
  {
    var m := Inside(es, n);
    if m > 0 { InsideIs(es, n, m - 1); }
    if m < |es| { InsideIs(es, n, m); }
  }

  /** The first bytes of a file of records. */
  predicate CutOf(data: Bytes, es: seq<Entry>) {
    AllFit(es) && |data| <= |File(es)| && data == File(es)[..|data|]
  }

  lemma CutIs(data: Bytes, es: seq<Entry>)
    requires CutOf(data, es)
    ensures AllFit(es) && |data| <= |File(es)| && data == File(es)[..|data|]
  {
  }

  /** A cut file is the records wholly inside and what is left of the next one. */
  lemma SplitsCut(data: Bytes, es: seq<Entry>)
    requires CutOf(data, es)
    ensures var m := Inside(es, |data|);
            && AllFit(es[..m]) && Start(es, m) <= |data| && data == File(es[..m]) + data[Start(es, m)..]
            && (data == File(es) ==> m == |es| && Start(es, m) == |data|)
  {
    hide *;
    CutIs(data, es);
    var m, f := Inside(es, |data|), File(es);
    InsideEnds(es, |data|);
    FilePrefix(es, m);
    TakeSplits(f, |data|, Start(es, m));
    WholeInside(es);
  }

  lemma WholeInside(es: seq<Entry>)
    ensures Inside(es, Start(es, |es|)) == |es|
  {
    hide Inside;
    var m := Inside(es, Start(es, |es|));
    InsideEnds(es, Start(es, |es|));
    if m < |es| { StartGrows(es, m + 1, |es|); }
  }

  lemma TakeSplits(f: Bytes, n: nat, a: nat)
    requires a <= n <= |f|
    ensures f[..n] == f[..a] + f[..n][a..]
  {
  }

  lemma FilePrefix(es: seq<Entry>, m: nat)
    requires AllFit(es) && m <= |es|
    ensures AllFit(es[..m]) && Start(es, m) <= |File(es)| && File(es[..m]) == File(es)[..Start(es, m)]
  {
    StartGrows(es, m, |es|);
    StartPrefix(es, es[..m], m);
    BytesPrefix(es, |es|, m);
  }

  lemma {:induction false} BytesPrefix(es: seq<Entry>, n: nat, m: nat)
    requires AllFit(es) && m <= n <= |es|
    ensures Start(es, m) <= Start(es, n) && Bytes0(es, n)[..Start(es, m)] == Bytes0(es, m)
  {
    hide Encode;
    StartGrows(es, m, n);
    if m < n {
      BytesPrefix(es, n - 1, m);
      BytesSnoc(es, n);
      SliceOfSlice(Bytes0(es, n), 0, Start(es, n - 1), 0, Start(es, m));
    }
  }

  /** The load loop's offset after `k` records, or -1 once it has stopped. */
  function OffsetAfter(data: Bytes, blockSize: nat, k: nat): int {
    if k == 0 then 0
    else
      var offset := OffsetAfter(data, blockSize, k - 1);
      if 0 <= offset < blockSize && ReadAt(data, offset).Record? then offset + ReadAt(data, offset).size else -1
  }

  /** The loop comes to read at `offset`. */
  ghost predicate Arrives(data: Bytes, blockSize: nat, offset: nat) {
    offset < blockSize && exists k: nat :: OffsetAfter(data, blockSize, k) == offset
  }

  /** A file that starts with the first `n` bytes of the records. */
  predicate Continues(data: Bytes, es: seq<Entry>, n: nat) {
    AllFit(es) && n <= Start(es, |es|) && n <= |data| && data[..n] == File(es)[..n]
  }

  /** While whole records last, the loop goes from one to the next. */
  lemma {:induction false} ArrivesAtWhole(data: Bytes, es: seq<Entry>, n: nat, blockSize: nat, k: nat)
    requires Continues(data, es, n) && k <= Inside(es, n) && n < blockSize
    ensures OffsetAfter(data, blockSize, k) == Start(es, k) <= n
    decreases k
  {
    hide Inside, ReadAt, File;
    InsideEnds(es, n);
    StartGrows(es, k, Inside(es, n));
    if k > 0 {
      ArrivesAtWhole(data, es, n, blockSize, k - 1);
      StartGrows(es, k - 1, k);
      WholeReads(data, es, n, k - 1);
    }
  }

  lemma WholeReads(data: Bytes, es: seq<Entry>, n: nat, k: nat)
    requires Continues(data, es, n) && k < |es| && Start(es, k + 1) <= n
    ensures ReadAt(data, Start(es, k)) == Record(es[k], Length(es[k]))
            && Start(es, k + 1) == Start(es, k) + Length(es[k])
  {
    hide ReadAt, Encode;
    var f, at := File(es), Start(es, k);
    StartNext(es, k);
    StartGrows(es, k + 1, |es|);
    RecordAt(es, |es|, k);
    SliceOfSlice(data, 0, n, at, at + Length(es[k]));
    SliceOfSlice(f, 0, n, at, at + Length(es[k]));
    HoldsWhole(data, at, es[k]);
    ReadWhole(data, at, es[k]);
  }

  // ---- storing behind the remains ----

  lemma SizeRead(data: Bytes, at: nat)
    requires ReadAt(data, at).Record?
    ensures at + ENTRY_HEADER_SIZE <= |data|
    ensures var h := Decode(data[at..at + ENTRY_HEADER_SIZE]);
            ReadAt(data, at).size == Size(h.keySize, h.valueSize, h.extraSize)
  {
    hide Decode, Checksum;
  }

  /** With its header whole, a cut record still reads as long as it was. */
  lemma TornLength(data: Bytes, es: seq<Entry>, n: nat)
    requires Continues(data, es, n) && Inside(es, n) < |es| && Start(es, Inside(es, n)) + ENTRY_HEADER_SIZE <= n
    ensures var m := Inside(es, n); var r := ReadAt(data, Start(es, m));
            r.Record? ==> r.size == Length(es[m]) && Start(es, m) + r.size > n
  {
    hide Inside, ReadAt, File, Decode, Continues, Size;
    var m, at := Inside(es, n), Start(es, Inside(es, n));
    InsideEnds(es, n);
    StartNext(es, m);
    if ReadAt(data, at).Record? {
      SizeRead(data, at);
      HeaderKept(data, es, n, m);
      SizeIsLength(es[m]);
    }
  }

  lemma SizeIsLength(e: Entry)
    requires Entries.Fits(e)
    ensures Size(|e.key|, |e.value|, |e.extra|) == Length(e)
  {
  }

  lemma HeaderKept(data: Bytes, es: seq<Entry>, n: nat, m: nat)
    requires Continues(data, es, n) && m < |es| && Start(es, m) + ENTRY_HEADER_SIZE <= n
    ensures Entries.Fits(es[m])
    ensures var h := Decode(data[Start(es, m)..Start(es, m) + ENTRY_HEADER_SIZE]);
            h.keySize == |es[m].key| && h.valueSize == |es[m].value| && h.extraSize == |es[m].extra|
  {
    hide Holds, Decode, File, Encode, Checksum, Continues, AllFit, Start;
    CutParts(data, es, n);
    var at, f := Start(es, m), File(es);
    HoldsHere(es, n, m);
    HeaderHere(f[..n], at, es[m]);
    SameHeader(data, f, n, at);
  }

  lemma CutParts(data: Bytes, es: seq<Entry>, n: nat)
    requires Continues(data, es, n)
    ensures AllFit(es) && n <= |data| && n <= |File(es)| && data[..n] == File(es)[..n]
    ensures forall k {:trigger es[k]} :: 0 <= k < |es| ==> Entries.Fits(es[k])
  {
  }

  lemma SameHeader(data: Bytes, f: Bytes, n: nat, at: nat)
    requires n <= |data| && n <= |f| && data[..n] == f[..n] && at + ENTRY_HEADER_SIZE <= n
    ensures data[at..at + ENTRY_HEADER_SIZE] == f[..n][at..at + ENTRY_HEADER_SIZE]
  {
    SliceOfSlice(data, 0, n, at, at + ENTRY_HEADER_SIZE);
  }

  /** No record reads as shorter than its header; lengths read out of a cut header could add up past 32 bits. */
  predicate LengthsFit(data: Bytes, at: nat) {
    ReadAt(data, at).Record? ==> ReadAt(data, at).size >= ENTRY_HEADER_SIZE
  }

  /** The loop never goes back. */
  lemma {:induction false} OffsetGrows(data: Bytes, blockSize: nat, j: nat, k: nat)
    requires j <= k
    ensures OffsetAfter(data, blockSize, k) == -1
            || 0 <= OffsetAfter(data, blockSize, j) <= OffsetAfter(data, blockSize, k)
    decreases k
  {
    hide ReadAt;
    if j < k { OffsetGrows(data, blockSize, j, k - 1); }
  }

  /** From the first cut record the loop goes past byte `n`, or no further. */
  lemma PastTheCut(data: Bytes, es: seq<Entry>, n: nat, blockSize: nat, k: nat)
    requires Continues(data, es, n) && n < blockSize && Start(es, Inside(es, n)) < n
    requires Start(es, Inside(es, n)) + ENTRY_HEADER_SIZE <= n || LengthsFit(data, Start(es, Inside(es, n)))
    ensures OffsetAfter(data, blockSize, k) != n
  {
    hide Inside, ReadAt, File, OffsetAfter, Continues;
    var m := Inside(es, n);
    InsideEnds(es, n);
    if k <= m {
      ArrivesAtWhole(data, es, n, blockSize, k);
      StartGrows(es, k, m);
    } else {
      ArrivesAtWhole(data, es, n, blockSize, m);
      AfterTheCut(data, es, n, blockSize);
      OffsetGrows(data, blockSize, m + 1, k);
    }
  }

  lemma AfterTheCut(data: Bytes, es: seq<Entry>, n: nat, blockSize: nat)
    requires Continues(data, es, n) && n < blockSize && Start(es, Inside(es, n)) < n
    requires OffsetAfter(data, blockSize, Inside(es, n)) == Start(es, Inside(es, n))
    requires Start(es, Inside(es, n)) + ENTRY_HEADER_SIZE <= n || LengthsFit(data, Start(es, Inside(es, n)))
    ensures OffsetAfter(data, blockSize, Inside(es, n) + 1) == -1 || OffsetAfter(data, blockSize, Inside(es, n) + 1) > n
  {
    hide Inside, ReadAt, File;
    var m := Inside(es, n);
    if m == |es| { CutIsRecord(data, es, n); }
    if Start(es, m) + ENTRY_HEADER_SIZE <= n { TornLength(data, es, n); }
  }

  lemma CutIsRecord(data: Bytes, es: seq<Entry>, n: nat)
    requires Continues(data, es, n) && Start(es, Inside(es, n)) < n
    ensures Inside(es, n) < |es|
  {
  }

  /** A record stored behind the first `n` bytes of a file reads back from its place;
      the next open comes to it exactly if those bytes end with a whole record. */
  lemma StoredBehind(es: seq<Entry>, n: nat, e: Entry, blockSize: nat)
    requires AllFit(es) && Entries.Fits(e) && n <= Start(es, |es|) && n < blockSize
    requires var at := Start(es, Inside(es, n));
             at < n < at + ENTRY_HEADER_SIZE ==> LengthsFit(File(es)[..n] + Encode(e, TX_ID), at)
    ensures var data := File(es)[..n] + Encode(e, TX_ID);
            && ReadAt(data, n) == Record(e, Length(e))
            && (Arrives(data, blockSize, n) <==> Start(es, Inside(es, n)) == n)
  {
    hide Inside, ReadAt, File, Encode, OffsetAfter, Arrives, Continues, LengthsFit;
    var data := File(es)[..n] + Encode(e, TX_ID);
    BehindReads(File(es)[..n], e);
    BehindContinues(es, n, Encode(e, TX_ID));
    InsideEnds(es, n);
    if Start(es, Inside(es, n)) == n {
      ArrivesAtWhole(data, es, n, blockSize, Inside(es, n));
      ArrivesBy(data, blockSize, n, Inside(es, n));
    } else {
      forall k: nat ensures OffsetAfter(data, blockSize, k) != n {
        PastTheCut(data, es, n, blockSize, k);
      }
      NeverArrives(data, blockSize, n);
    }
  }

  lemma BehindReads(p: Bytes, e: Entry)
    requires Entries.Fits(e)
    ensures ReadAt(p + Encode(e, TX_ID), |p|) == Record(e, Length(e))
  {
    hide ReadAt, Encode, Holds;
    Behind(p, Encode(e, TX_ID));
    HoldsWhole(p + Encode(e, TX_ID), |p|, e);
    ReadWhole(p + Encode(e, TX_ID), |p|, e);
  }

  lemma BehindContinues(es: seq<Entry>, n: nat, q: Bytes)
    requires AllFit(es) && n <= Start(es, |es|)
    ensures Continues(File(es)[..n] + q, es, n)
  {
    hide File;
    Behind(File(es)[..n], q);
  }

  lemma Behind(p: Bytes, q: Bytes)
    ensures (p + q)[..|p|] == p && (p + q)[|p|..|p| + |q|] == q
  {
  }

  lemma HoldsWhole(data: Bytes, at: nat, e: Entry)
    requires Entries.Fits(e) && at + Length(e) <= |data| && data[at..at + Length(e)] == Encode(e, TX_ID)
    ensures Holds(data, at, e)
  {
    hide Encode;
    assert Encode(e, TX_ID)[..Length(e)] == Encode(e, TX_ID);
  }

  lemma ArrivesBy(data: Bytes, blockSize: nat, offset: nat, k: nat)
    requires offset < blockSize && OffsetAfter(data, blockSize, k) == offset
    ensures Arrives(data, blockSize, offset)
  {
  }

  lemma NeverArrives(data: Bytes, blockSize: nat, offset: nat)
    requires forall k: nat :: OffsetAfter(data, blockSize, k) != offset
    ensures !Arrives(data, blockSize, offset)
  {
  }
}
