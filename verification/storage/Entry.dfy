/** Log records and their bytes. */
module Entries {
  import opened Coding
  import Binary
  import Crc

  const ENTRY_HEADER_SIZE: nat := 34

  /** An entry's fields; `state` is the data type in the high byte and the operation below it. */
  datatype Entry = Entry(key: Bytes, value: Bytes, extra: Bytes, state: nat, timeStamp: nat)

  /** What fits the header's field widths, the record's length included. */
  predicate Fits(e: Entry) {
    && ENTRY_HEADER_SIZE + |e.key| + |e.value| + |e.extra| < TWO_32
    && e.state < TWO_16 && e.timeStamp < TWO_64
  }

  /** Size, in 32 bits. */
  function Size(keySize: nat, valueSize: nat, extraSize: nat): nat {
    (ENTRY_HEADER_SIZE + keySize + valueSize + extraSize) % TWO_32
  }

  function Length(e: Entry): nat { ENTRY_HEADER_SIZE + |e.key| + |e.value| + |e.extra| }

  /** The bytes as the checksum takes them. */
  function BitsOf(value: Bytes): (bits: seq<bv8>)
    ensures |bits| == |value| && forall i :: 0 <= i < |value| ==> bits[i] == Binary.Bits(value[i])
  {
    seq(|value|, i requires 0 <= i < |value| => Binary.Bits(value[i]))
  }

  /** The checksum of the value, as the number the header holds. */
  function Checksum(value: Bytes): (crc: nat)
    ensures crc < TWO_16
  {
    Binary.Number(Crc.Crc16(BitsOf(value)))
  }

  /** One changed byte changes the checksum. */
  lemma DamageChangesChecksum(value: Bytes, i: nat, b: byte)
    requires i < |value| && b != value[i]
    ensures Checksum(value[i := b]) != Checksum(value)
  {
    hide *;
    var a, c, d := BitsOf(value[..i]), Binary.Bits(value[i]), BitsOf(value[i + 1..]);
    assert BitsOf(value) == a + [c] + d && BitsOf(value[i := b]) == a + [Binary.Bits(b)] + d;
    if Binary.Bits(b) == c {
      Binary.ByteOfBits(b);
      Binary.ByteOfBits(value[i]);
    }
    Crc.OneByteCaught(a, c, Binary.Bits(b), d);
    ChecksumIs(value);
    ChecksumIs(value[i := b]);
    if Checksum(value) == Checksum(value[i := b]) {
      Binary.NumberInjective(Crc.Crc16(BitsOf(value)), Crc.Crc16(BitsOf(value[i := b])));
    }
  }

  lemma ChecksumIs(value: Bytes)
    ensures Checksum(value) == Binary.Number(Crc.Crc16(BitsOf(value)))
  {
  }

  lemma ChecksumOfEmpty()
    ensures Checksum([]) == 0
  {
    hide Crc.Crc16, Binary.Bits;
    Crc.CrcOfNone();
    assert BitsOf([]) == [];
  }

  // ---- Encode and Decode ----

  function EncodeHeader(crc: nat, e: Entry, txId: nat): (buf: Bytes)
    requires Fits(e) && crc < TWO_32 && txId < TWO_64
    ensures |buf| == ENTRY_HEADER_SIZE
  {
    EncodeFixed32(crc) + EncodeFixed32(|e.key|) + EncodeFixed32(|e.value|) + EncodeFixed32(|e.extra|)
    + EncodeFixed16(e.state) + EncodeFixed64(e.timeStamp) + EncodeFixed64(txId)
  }

  function Encode(e: Entry, txId: nat): (buf: Bytes)
    requires Fits(e) && txId < TWO_64
    ensures |buf| == Length(e)
  {
    EncodeHeader(Checksum(e.value), e, txId) + e.key + e.value + (if |e.extra| > 0 then e.extra else [])
  }

  datatype Header = Header(crc32: nat, keySize: nat, valueSize: nat, extraSize: nat, state: nat, timeStamp: nat,
      txId: nat)

  /** Decode. The transaction id is read at byte 22, though it is written at 26. */
  function Decode(buf: Bytes): Header
    requires |buf| >= ENTRY_HEADER_SIZE
  {
    Header(DecodeFixed32(buf), DecodeFixed32(buf[4..]), DecodeFixed32(buf[8..]), DecodeFixed32(buf[12..]),
           DecodeFixed16(buf[16..]), DecodeFixed64(buf[18..]), DecodeFixed64(buf[22..]))
  }

  lemma Decode32At(buf: Bytes, at: nat, value: nat)
    requires at + 4 <= |buf| && value < TWO_32 && buf[at..at + 4] == EncodeFixed32(value)
    ensures DecodeFixed32(buf[at..]) == value
  {
    RoundTrip32(value);
    forall k | 0 <= k < 4 ensures buf[at..][k] == EncodeFixed32(value)[k] {
      assert buf[at..at + 4][k] == buf[at..][k];
    }
  }

  lemma Decode16At(buf: Bytes, at: nat, value: nat)
    requires at + 2 <= |buf| && value < TWO_16 && buf[at..at + 2] == EncodeFixed16(value)
    ensures DecodeFixed16(buf[at..]) == value
  {
    RoundTrip16(value);
    forall k | 0 <= k < 2 ensures buf[at..][k] == EncodeFixed16(value)[k] {
      assert buf[at..at + 2][k] == buf[at..][k];
    }
  }

  lemma Decode64At(buf: Bytes, at: nat, value: nat)
    requires at + 8 <= |buf| && value < TWO_64 && buf[at..at + 8] == EncodeFixed64(value)
    ensures DecodeFixed64(buf[at..]) == value
  {
    RoundTrip64(value);
    forall k | 0 <= k < 8 ensures buf[at..][k] == EncodeFixed64(value)[k] {
      assert buf[at..at + 8][k] == buf[at..][k];
    }
  }

  /** Where the fields lie. */
  lemma Layout(crc: nat, e: Entry, txId: nat)
    requires Fits(e) && crc < TWO_32 && txId < TWO_64
    ensures var buf := EncodeHeader(crc, e, txId);
            && buf[0..4] == EncodeFixed32(crc) && buf[4..8] == EncodeFixed32(|e.key|)
            && buf[8..12] == EncodeFixed32(|e.value|) && buf[12..16] == EncodeFixed32(|e.extra|)
            && buf[16..18] == EncodeFixed16(e.state) && buf[18..26] == EncodeFixed64(e.timeStamp)
            && buf[26..34] == EncodeFixed64(txId)
  {
  }

  /** Decode undoes Encode's header, but for the transaction id. */
  lemma HeaderRoundTrip(crc: nat, e: Entry, txId: nat)
    requires Fits(e) && crc < TWO_32 && txId < TWO_64
    ensures var h := Decode(EncodeHeader(crc, e, txId));
            && h.crc32 == crc && h.keySize == |e.key| && h.valueSize == |e.value| && h.extraSize == |e.extra|
            && h.state == e.state && h.timeStamp == e.timeStamp
  {
    hide EncodeHeader, DecodeFixed32, DecodeFixed16, DecodeFixed64;
    var buf := EncodeHeader(crc, e, txId);
    Layout(crc, e, txId);
    assert buf[0..] == buf;
    Decode32At(buf, 0, crc);
    Decode32At(buf, 4, |e.key|);
    Decode32At(buf, 8, |e.value|);
    Decode32At(buf, 12, |e.extra|);
    Decode16At(buf, 16, e.state);
    Decode64At(buf, 18, e.timeStamp);
  }

  /** What Decode takes for the transaction id: the upper half of the time stamp and the lower half of the id. */
  lemma TxIdMisread(crc: nat, e: Entry, txId: nat)
    requires Fits(e) && crc < TWO_32 && txId < TWO_64
    ensures Decode(EncodeHeader(crc, e, txId)).txId == e.timeStamp / TWO_32 + txId % TWO_32 * TWO_32
  {
    hide EncodeHeader;
    var buf := EncodeHeader(crc, e, txId);
    Layout(crc, e, txId);
    var s, t := EncodeFixed64(e.timeStamp), EncodeFixed64(txId);
    forall k | 0 <= k < 4 ensures buf[22..][k] == s[k + 4] && buf[22..][k + 4] == t[k] {
      assert buf[18..26][k + 4] == buf[22 + k] && buf[26..34][k] == buf[26 + k];
    }
    Upper(e.timeStamp);
    Lower(txId);
  }

  lemma Upper(v: nat)
    requires v < TWO_64
    ensures var s := EncodeFixed64(v);
            s[4] as int + (s[5] as int) * 0x100 + (s[6] as int) * 0x10000 + (s[7] as int) * 0x1000000 == v / TWO_32
  {
    Quotients64(v);
    QuotientsTop(v);
    Digits(v / 0x100000000, v / 0x10000000000, v / 0x1000000000000, v / 0x100000000000000);
  }

  lemma Lower(v: nat)
    requires v < TWO_64
    ensures var t := EncodeFixed64(v);
            t[0] as int + (t[1] as int) * 0x100 + (t[2] as int) * 0x10000 + (t[3] as int) * 0x1000000 == v % TWO_32
  {
    var w := v / 0x100000000;
    Quotients32(v);
    Quotients64(v);
    Digits(v, v / 0x100, v / 0x10000, v / 0x1000000);
    assert v / 0x1000000 == v / 0x1000000 % 256 + w * 0x100;
    assert v == w * 0x100000000 + v % 0x100000000;
  }

  /** What stands in a record's bytes: the checksum's two bytes, low before high, two zeros, then the fields as
      little-endian numbers, then key, value and extra. */
  lemma EncodedBytes(e: Entry, txId: nat)
    requires Fits(e) && txId < TWO_64
    ensures var buf := Encode(e, txId); var r := Crc.Crc16(BitsOf(e.value));
            && Binary.Bits(buf[0]) == (r & 0xFF) as bv8 && Binary.Bits(buf[1]) == (r >> 8) as bv8
            && buf[2] == buf[3] == 0
            && LittleEndian(buf[4..8]) == |e.key| && LittleEndian(buf[8..12]) == |e.value|
            && LittleEndian(buf[12..16]) == |e.extra| && LittleEndian(buf[16..18]) == e.state
            && LittleEndian(buf[18..26]) == e.timeStamp && LittleEndian(buf[26..34]) == txId
            && buf[34..] == e.key + e.value + e.extra
  {
    hide Encode, EncodeHeader, Checksum, LittleEndian, EncodeFixed32, BitsOf, Crc.Crc16, Binary.Bits;
    HeadAndBody(e, txId);
    var buf, head := Encode(e, txId), EncodeHeader(Checksum(e.value), e, txId);
    FieldBytes(Checksum(e.value), e, txId);
    ChecksumBytes(e.value);
    assert buf[0..4] == head[0..4] && buf[4..8] == head[4..8] && buf[8..12] == head[8..12];
    assert buf[12..16] == head[12..16] && buf[16..18] == head[16..18];
    assert buf[18..26] == head[18..26] && buf[26..34] == head[26..34];
    assert buf[0..4][0] == buf[0] && buf[0..4][1] == buf[1] && buf[0..4][2] == buf[2] && buf[0..4][3] == buf[3];
  }

  lemma FieldBytes(crc: nat, e: Entry, txId: nat)
    requires Fits(e) && crc < TWO_32 && txId < TWO_64
    ensures var buf := EncodeHeader(crc, e, txId);
            && buf[0..4] == EncodeFixed32(crc)
            && LittleEndian(buf[4..8]) == |e.key| && LittleEndian(buf[8..12]) == |e.value|
            && LittleEndian(buf[12..16]) == |e.extra| && LittleEndian(buf[16..18]) == e.state
            && LittleEndian(buf[18..26]) == e.timeStamp && LittleEndian(buf[26..34]) == txId
  {
    hide EncodeHeader, LittleEndian, EncodeFixed16, EncodeFixed32, EncodeFixed64;
    Layout(crc, e, txId);
    Fixed32(|e.key|);
    Fixed32(|e.value|);
    Fixed32(|e.extra|);
    Fixed16(e.state);
    Fixed64(e.timeStamp);
    Fixed64(txId);
  }

  lemma HeadAndBody(e: Entry, txId: nat)
    requires Fits(e) && txId < TWO_64
    ensures Encode(e, txId)[..34] == EncodeHeader(Checksum(e.value), e, txId)
    ensures Encode(e, txId)[34..] == e.key + e.value + e.extra
  {
    hide EncodeHeader, Checksum;
  }

  lemma ChecksumBytes(value: Bytes)
    ensures var s := EncodeFixed32(Checksum(value)); var r := Crc.Crc16(BitsOf(value));
            Binary.Bits(s[0]) == (r & 0xFF) as bv8 && Binary.Bits(s[1]) == (r >> 8) as bv8 && s[2] == s[3] == 0
  {
    hide Binary.Bits, Binary.Number, BitsOf, Crc.Crc16;
    var crc := Checksum(value);
    Binary.NumberBytes(Crc.Crc16(BitsOf(value)));
    assert crc / 0x100 % 256 == crc / 256 && crc / 0x10000 == 0 && crc / 0x1000000 == 0;
  }

  // ---- type and mark ----

  function GetType(state: nat): nat { state / 256 }

  /** `state & 127`. */
  function GetMark(state: nat): nat { state % 128 }

  /** `type << 8 | mark`. */
  function StateOf(dataType: nat, mark: nat): nat
    requires mark < 256
  {
    dataType * 256 + mark
  }

  lemma StateRoundTrip(dataType: nat, mark: nat)
    requires dataType < 256 && mark < 128
    ensures StateOf(dataType, mark) < TWO_16
    ensures GetType(StateOf(dataType, mark)) == dataType && GetMark(StateOf(dataType, mark)) == mark
  {
  }

  const TYPE_STRING: nat := 0
  const STRING_SET: nat := 0
  const STRING_REM: nat := 1
  const STRING_EXPIRE: nat := 2
}
