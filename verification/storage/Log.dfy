/** A log file written record by record, cut anywhere, and read back by the load loop. */
module Logs {
  import opened Coding
  import opened Entries
  import opened DBFiles
  import opened Slices

  /** Entry's constructors set the transaction id to -1. */
  const TX_ID: nat := TWO_64 - 1

  predicate AllFit(es: seq<Entry>) { forall k {:trigger es[k]} :: 0 <= k < |es| ==> Entries.Fits(es[k]) }

  predicate Keyed(es: seq<Entry>) { forall k {:trigger es[k]} :: 0 <= k < |es| ==> es[k].key != [] }

  /** Where record `k` starts. */
  function Start(es: seq<Entry>, k: nat): nat
    requires k <= |es|
  {
    if k == 0 then 0 else Start(es, k - 1) + Length(es[k - 1])
  }

  /** The bytes of the first `n` records. */
  function Bytes0(es: seq<Entry>, n: nat): (data: Bytes)
    requires n <= |es| && AllFit(es)
    ensures |data| == Start(es, n)
  {
    if n == 0 then [] else Bytes0(es, n - 1) + Encode(es[n - 1], TX_ID)
  }

  function File(es: seq<Entry>): (data: Bytes)
    requires AllFit(es)
    ensures |data| == Start(es, |es|)
  {
    Bytes0(es, |es|)
  }

  lemma {:induction false} StartGrows(es: seq<Entry>, j: nat, k: nat)
    requires j <= k <= |es|
    ensures Start(es, j) + (k - j) * ENTRY_HEADER_SIZE <= Start(es, k)
    decreases k
  {
    if j < k { StartGrows(es, j, k - 1); }
  }

  lemma {:induction false} StartPrefix(es: seq<Entry>, fs: seq<Entry>, k: nat)
    requires k <= |es| && k <= |fs| && es[..k] == fs[..k]
    ensures Start(es, k) == Start(fs, k)
    ensures AllFit(es) && AllFit(fs) ==> Bytes0(es, k) == Bytes0(fs, k)
  {
    if k > 0 {
      assert es[..k - 1] == es[..k][..k - 1] && fs[..k - 1] == fs[..k][..k - 1];
      assert es[k - 1] == es[..k][k - 1] == fs[..k][k - 1] == fs[k - 1];
      StartPrefix(es, fs, k - 1);
    }
  }

  /** Writing a record after the others. */
  lemma FileSnoc(es: seq<Entry>, e: Entry)
    requires AllFit(es) && Entries.Fits(e)
    ensures AllFit(es + [e]) && File(es + [e]) == File(es) + Encode(e, TX_ID)
    ensures Start(es + [e], |es|) == Start(es, |es|) && Start(es + [e], |es| + 1) == Start(es, |es|) + Length(e)
  {
    hide Encode;
    var fs := es + [e];
    assert fs[..|es|] == es[..|es|];
    StartPrefix(es, fs, |es|);
  }

  lemma BytesSnoc(es: seq<Entry>, n: nat)
    requires AllFit(es) && 0 < n <= |es|
    ensures Start(es, n - 1) <= Start(es, n) && |Bytes0(es, n)| == Start(es, n) && Entries.Fits(es[n - 1])
    ensures Bytes0(es, n)[0..Start(es, n - 1)] == Bytes0(es, n - 1)
    ensures Bytes0(es, n)[Start(es, n - 1)..Start(es, n)] == Encode(es[n - 1], TX_ID)
  {
    hide Encode;
  }

  /** The file from the start of record `k` on begins with that record. */
  lemma {:induction false} RecordAt(es: seq<Entry>, n: nat, k: nat)
    requires AllFit(es) && k < n <= |es|
    ensures Start(es, k + 1) <= Start(es, n)
    ensures Bytes0(es, n)[Start(es, k)..Start(es, k + 1)] == Encode(es[k], TX_ID)
  {
    hide *;
    StartGrows(es, k, k + 1);
    StartGrows(es, k + 1, n);
    BytesSnoc(es, n);
    if k < n - 1 {
      RecordAt(es, n - 1, k);
      SliceOfSlice(Bytes0(es, n), 0, Start(es, n - 1), Start(es, k), Start(es, k + 1));
    }
  }

  // ---- reading ----

  /** The pieces of one encoded record. */
  lemma EncodePieces(e: Entry)
    requires Entries.Fits(e)
    ensures var buf := Encode(e, TX_ID); var v := ENTRY_HEADER_SIZE + |e.key|; var x := v + |e.value|;
            && buf[..ENTRY_HEADER_SIZE] == EncodeHeader(Checksum(e.value), e, TX_ID)
            && buf[ENTRY_HEADER_SIZE..v] == e.key && buf[v..x] == e.value && buf[x..] == e.extra
  {
    hide EncodeHeader, Checksum;
  }

  /** `data` holds a record's encoding at `at`, as far as the file goes. */
  predicate Holds(data: Bytes, at: nat, e: Entry)
    requires Entries.Fits(e)
  {
    at <= |data| && (var n := if |data| - at < Length(e) then |data| - at else Length(e);
        data[at..at + n] == Encode(e, TX_ID)[..n])
  }

  lemma Piece(data: Bytes, at: nat, e: Entry, i: nat, j: nat)
    requires Entries.Fits(e) && Holds(data, at, e) && i <= j <= Length(e) && at + j <= |data|
    ensures data[at + i..at + j] == Encode(e, TX_ID)[i..j]
  {
    hide Encode;
    var n := if |data| - at < Length(e) then |data| - at else Length(e);
    SliceOfSlice(data, at, at + n, i, j);
    SliceOfSlice(Encode(e, TX_ID), 0, n, i, j);
  }

  lemma HeaderHere(data: Bytes, at: nat, e: Entry)
    requires Entries.Fits(e) && Holds(data, at, e) && at + ENTRY_HEADER_SIZE <= |data|
    ensures var h := Decode(data[at..at + ENTRY_HEADER_SIZE]);
            && h.crc32 == Checksum(e.value) && h.keySize == |e.key| && h.valueSize == |e.value|
                 && h.extraSize == |e.extra|
            && h.state == e.state && h.timeStamp == e.timeStamp
  {
    hide Encode, EncodeHeader, Decode, Checksum, Holds;
    Piece(data, at, e, 0, ENTRY_HEADER_SIZE);
    EncodePieces(e);
    assert data[at + 0..at + ENTRY_HEADER_SIZE] == EncodeHeader(Checksum(e.value), e, TX_ID);
    HeaderRoundTrip(Checksum(e.value), e, TX_ID);
  }

  /** A record wholly in the file reads back. */
  lemma ReadWhole(data: Bytes, at: nat, e: Entry)
    requires Entries.Fits(e) && Holds(data, at, e) && at + Length(e) <= |data|
    ensures ReadAt(data, at) == Record(e, Length(e))
  {
    hide Encode, EncodeHeader, Decode, Checksum, Field, Holds;
    HeaderHere(data, at, e);
    EncodePieces(e);
    var v := ENTRY_HEADER_SIZE + |e.key|;
    FieldHere(data, at, e, ENTRY_HEADER_SIZE, v);
    FieldHere(data, at, e, v, v + |e.value|);
    FieldHere(data, at, e, v + |e.value|, Length(e));
    assert Encode(e, TX_ID)[v + |e.value|..Length(e)] == e.extra;
  }

  /** A record wholly in the file, but with one byte of its value changed, is reported. */
  lemma ReadDamaged(data: Bytes, at: nat, e: Entry, i: nat, b: byte)
    requires Entries.Fits(e) && Holds(data, at, e) && at + Length(e) <= |data|
    requires i < |e.value| && b != e.value[i]
    ensures ReadAt(data[at + ENTRY_HEADER_SIZE + |e.key| + i := b], at) == BadCrc(e.key)
  {
    hide Encode, EncodeHeader, Decode, Checksum, Holds;
    var v := ENTRY_HEADER_SIZE + |e.key|;
    var x := v + |e.value|;
    var data' := data[at + v + i := b];
    HeaderHere(data, at, e);
    EncodePieces(e);
    Piece(data, at, e, ENTRY_HEADER_SIZE, v);
    Piece(data, at, e, v, x);
    assert data'[at..at + ENTRY_HEADER_SIZE] == data[at..at + ENTRY_HEADER_SIZE];
    assert data'[at + ENTRY_HEADER_SIZE..at + v] == e.key;
    assert data'[at + v..at + x] == data[at + v..at + x][i := b] == e.value[i := b];
    DamageChangesChecksum(e.value, i, b);
  }

  lemma FieldHere(data: Bytes, at: nat, e: Entry, i: nat, j: nat)
    requires Entries.Fits(e) && Holds(data, at, e) && i <= j <= Length(e) && at + j <= |data|
    ensures Field(data, at + i, j - i) == Encode(e, TX_ID)[i..j]
  {
    hide Encode;
    Piece(data, at, e, i, j);
  }

  /** A record cut off does not read, but for a cut inside the key of a record of a key alone: that one reads
      without its key. */
  lemma ReadTorn(data: Bytes, at: nat, e: Entry)
    requires Entries.Fits(e) && Holds(data, at, e) && at + Length(e) > |data| && e.key != []
    ensures if at + ENTRY_HEADER_SIZE <= |data| && e.value == [] && e.extra == []
            then ReadAt(data, at) == Record(e.(key := []), Length(e))
            else ReadAt(data, at) == EndOfFile
  {
    hide Encode, EncodeHeader, Decode, Checksum;
    ChecksumOfEmpty();
    if at + ENTRY_HEADER_SIZE <= |data| {
      HeaderHere(data, at, e);
    }
  }

  lemma ReadPast(data: Bytes, at: nat)
    requires at >= |data|
    ensures ReadAt(data, at) == EndOfFile
  {
  }

  // ---- the load loop ----

  /** The loop gets record `k` out of the first `n` bytes, if it gets to it. */
  predicate Gets(es: seq<Entry>, n: nat, blockSize: nat, k: nat)
    requires k < |es|
  {
    Start(es, k) < blockSize && Start(es, k + 1) <= n
  }

  /** How many records the loop gets: it stops at the first one it does not. */
  function Reached(es: seq<Entry>, n: nat, blockSize: nat): (m: nat)
    ensures m <= |es|
    ensures forall k {:trigger Gets(es, n, blockSize, k)} :: 0 <= k < m ==> Gets(es, n, blockSize, k)
    ensures m < |es| ==> !Gets(es, n, blockSize, m)
  {
    ReachedFrom(es, n, blockSize, 0)
  }

  function ReachedFrom(es: seq<Entry>, n: nat, blockSize: nat, k: nat): (m: nat)
    requires k <= |es|
    ensures k <= m <= |es|
    ensures forall j {:trigger Gets(es, n, blockSize, j)} :: k <= j < m ==> Gets(es, n, blockSize, j)
    ensures m < |es| ==> !Gets(es, n, blockSize, m)
    decreases |es| - k
  {
    if k < |es| && Gets(es, n, blockSize, k) then ReachedFrom(es, n, blockSize, k + 1) else k
  }

  /** Those are exactly the records wholly inside the prefix that start below the block size. */
  lemma ReachedIsInside(es: seq<Entry>, n: nat, blockSize: nat, k: nat)
    requires k < |es|
    ensures k < Reached(es, n, blockSize) <==> Gets(es, n, blockSize, k)
  {
    var m := Reached(es, n, blockSize);
    if m <= k {
      StartGrows(es, m, k);
      StartGrows(es, m + 1, k + 1);
    }
  }

  lemma HoldsHere(es: seq<Entry>, n: nat, k: nat)
    requires AllFit(es) && k < |es| && Start(es, k) <= n <= |File(es)|
    ensures Holds(File(es)[..n], Start(es, k), es[k])
  {
    hide *;
    RecordAt(es, |es|, k);
    StartNext(es, k);
    FileIs(es);
    HoldsSlice(File(es), n, Start(es, k), es[k]);
  }

  lemma StartNext(es: seq<Entry>, k: nat)
    requires k < |es|
    ensures Start(es, k + 1) == Start(es, k) + Length(es[k])
  {
  }

  lemma FileIs(es: seq<Entry>)
    requires AllFit(es)
    ensures File(es) == Bytes0(es, |es|) && forall k {:trigger es[k]} :: 0 <= k < |es| ==> Entries.Fits(es[k])
  {
  }

  lemma HoldsSlice(f: Bytes, n: nat, s: nat, e: Entry)
    requires Entries.Fits(e) && s <= n <= |f| && s + Length(e) <= |f| && f[s..s + Length(e)] == Encode(e, TX_ID)
    ensures Holds(f[..n], s, e)
  {
    hide Encode, Length;
    var l := Length(e);
    var c := if n - s < l then n - s else l;
    assert f[..n][s..s + c] == f[s..s + l][..c];
  }

  datatype Loaded = Loaded(entry: Entry, offset: nat)

  /** The loop of loadIdxFromFiles over one file: which entries it hands to buildIndex, and with which offsets. */
  method LoadFile(df: DBFile, blockSize: nat, ghost es: seq<Entry>) returns (fatal: bool, applied: seq<Loaded>)
    requires AllFit(es) && Keyed(es) && |df.data| <= |File(es)| && df.data == File(es)[..|df.data|]
    modifies df`Offset
    ensures !fatal && |applied| == Reached(es, |df.data|, blockSize)
    ensures forall k :: 0 <= k < |applied| ==> applied[k] == Loaded(es[k], Start(es, k))
  {
    hide ReadAt, Encode;
    fatal, applied := false, [];
    var offset := 0;
    ghost var n := |df.data|;
    ghost var m := Reached(es, n, blockSize);
    while offset < blockSize
      invariant |applied| <= m && forall k :: 0 <= k < |applied| ==> applied[k] == Loaded(es[k], Start(es, k))
      invariant offset == Start(es, |applied|) || (|applied| == m && offset > n)
      decreases n + blockSize - offset
    {
      var s := df.Read(offset);
      LoopRead(es, n, blockSize, |applied|, offset);
      if s == EndOfFile {
        break;
      }
      if s.BadCrc? {
        return true, applied;
      }
      var at := offset;
      offset := offset + s.size;
      df.Offset := offset;
      if s.entry.key != [] {
        applied := applied + [Loaded(s.entry, at)];
      }
    }
    if |applied| < m { ReachedIsInside(es, n, blockSize, |applied|); }
  }

  /** What the loop's next read gives. */
  lemma LoopRead(es: seq<Entry>, n: nat, blockSize: nat, k: nat, offset: nat)
    requires AllFit(es) && Keyed(es) && n <= |File(es)| && k <= Reached(es, n, blockSize) && offset < blockSize
    requires offset == Start(es, k) || (k == Reached(es, n, blockSize) && offset > n)
    ensures var s := ReadAt(File(es)[..n], offset); var m := Reached(es, n, blockSize);
            if k < m && offset == Start(es, k) then s == Record(es[k], Length(es[k]))
                && Start(es, k + 1) == offset + Length(es[k])
            else k == m && (s == EndOfFile || (s.Record? && s.entry.key == [] && offset + s.size > n && s.size > 0))
  {
    hide Encode, ReadAt, Reached;
    var m := Reached(es, n, blockSize);
    if offset == Start(es, k) {
      if k < |es| { ReachedIsInside(es, n, blockSize, k); }
      if k < |es| && offset <= n {
        HoldsHere(es, n, k);
        if Start(es, k + 1) <= n {
          ReadWhole(File(es)[..n], offset, es[k]);
        } else {
          ReadTorn(File(es)[..n], offset, es[k]);
        }
      } else {
        ReadPast(File(es)[..n], offset);
      }
    } else {
      ReadPast(File(es)[..n], offset);
    }
  }
}
