/** Fixed-width little-endian numbers. Shifting right by eight is division by
    256, the cast to a byte is the remainder, and or-ing bytes in disjoint places is their sum. */
module Coding {

  type byte = x: int | 0 <= x < 256
  type Bytes = seq<byte>

  const TWO_16: int := 0x1_0000
  const TWO_32: int := 0x1_0000_0000
  const TWO_64: int := 0x1_0000_0000_0000_0000

  function EncodeFixed16(value: nat): (dst: Bytes)
    requires value < TWO_16
    ensures |dst| == 2
  {
    [value % 256, value / 256]
  }

  function DecodeFixed16(ptr: Bytes): (value: nat)
    requires |ptr| >= 2
    ensures value < TWO_16
  {
    ptr[0] as int + (ptr[1] as int) * 0x100
  }

  function EncodeFixed32(value: nat): (dst: Bytes)
    requires value < TWO_32
    ensures |dst| == 4
  {
    [value % 256, value / 0x100 % 256, value / 0x10000 % 256, value / 0x1000000]
  }

  function DecodeFixed32(ptr: Bytes): (value: nat)
    requires |ptr| >= 4
    ensures value < TWO_32
  {
    ptr[0] as int + (ptr[1] as int) * 0x100 + (ptr[2] as int) * 0x10000 + (ptr[3] as int) * 0x1000000
  }

  function EncodeFixed64(value: nat): (dst: Bytes)
    requires value < TWO_64
    ensures |dst| == 8
  {
    [value % 256, value / 0x100 % 256, value / 0x10000 % 256, value / 0x1000000 % 256,
     value / 0x100000000 % 256, value / 0x10000000000 % 256, value / 0x1000000000000 % 256, value / 0x100000000000000]
  }

  function DecodeFixed64(ptr: Bytes): (value: nat)
    requires |ptr| >= 8
    ensures value < TWO_64
  {
    ptr[0] as int + (ptr[1] as int) * 0x100 + (ptr[2] as int) * 0x10000 + (ptr[3] as int) * 0x1000000
    + (ptr[4] as int) * 0x100000000 + (ptr[5] as int) * 0x10000000000 + (ptr[6] as int) * 0x1000000000000
        + (ptr[7] as int) * 0x100000000000000
  }

  // ---- what the bytes stand for ----

  /** The number whose digits to base 256 are the bytes, the lowest first. */
  function LittleEndian(s: Bytes): nat { if s == [] then 0 else s[0] as int + 256 * LittleEndian(s[1..]) }

  lemma Fixed16(value: nat)
    requires value < TWO_16
    ensures LittleEndian(EncodeFixed16(value)) == value
  {
    var s := EncodeFixed16(value);
    Two(s);
  }

  lemma Two(s: Bytes)
    requires |s| == 2
    ensures LittleEndian(s) == DecodeFixed16(s)
  {
    LowestFirst(s);
    LowestFirst(s[1..]);
    assert s[1..][1..] == [];
  }

  lemma Four(s: Bytes)
    requires |s| == 4
    ensures LittleEndian(s) == DecodeFixed32(s)
  {
    assert s[1..][1..] == s[2..];
    Two(s[2..]);
  }

  lemma Eight(s: Bytes)
    requires |s| == 8
    ensures LittleEndian(s) == DecodeFixed64(s)
  {
    hide LittleEndian;
    LowestFirst(s);
    LowestFirst(s[1..]);
    LowestFirst(s[2..]);
    LowestFirst(s[3..]);
    assert s[1..][1..] == s[2..] && s[2..][1..] == s[3..] && s[3..][1..] == s[4..];
    Four(s[4..]);
  }

  lemma LowestFirst(s: Bytes)
    requires s != []
    ensures LittleEndian(s) == s[0] as int + 256 * LittleEndian(s[1..])
  {
  }

  lemma Fixed32(value: nat)
    requires value < TWO_32
    ensures LittleEndian(EncodeFixed32(value)) == value
  {
    hide EncodeFixed32, DecodeFixed32, LittleEndian;
    Four(EncodeFixed32(value));
    RoundTrip32(value);
  }

  lemma Fixed64(value: nat)
    requires value < TWO_64
    ensures LittleEndian(EncodeFixed64(value)) == value
  {
    hide EncodeFixed64, DecodeFixed64, LittleEndian;
    Eight(EncodeFixed64(value));
    RoundTrip64(value);
  }

  lemma RoundTrip16(value: nat)
    requires value < TWO_16
    ensures DecodeFixed16(EncodeFixed16(value)) == value
  {
  }

  /** Dropping bytes one at a time or at once. */
  lemma Quotients32(value: nat)
    ensures value / 0x10000 == value / 0x100 / 0x100
    ensures value / 0x1000000 == value / 0x10000 / 0x100
  {
  }

  lemma Quotients64(value: nat)
    ensures value / 0x100000000 == value / 0x1000000 / 0x100
    ensures value / 0x10000000000 == value / 0x100000000 / 0x100
  {
  }

  lemma QuotientsTop(value: nat)
    ensures value / 0x1000000000000 == value / 0x10000000000 / 0x100
    ensures value / 0x100000000000000 == value / 0x1000000000000 / 0x100
  {
  }

  lemma RoundTrip32(value: nat)
    requires value < TWO_32
    ensures DecodeFixed32(EncodeFixed32(value)) == value
  {
    Quotients32(value);
    Digits(value, value / 0x100, value / 0x10000, value / 0x1000000);
  }

  /** A number is its low byte and 256 times the rest. */
  lemma Digits(v: nat, v1: nat, v2: nat, v3: nat)
    requires v1 == v / 0x100 && v2 == v1 / 0x100 && v3 == v2 / 0x100
    ensures v % 256 + v1 % 256 * 0x100 + v2 % 256 * 0x10000 + v3 * 0x1000000 == v
  {
    assert v == v % 256 + v1 * 0x100;
    assert v1 == v1 % 256 + v2 * 0x100;
    assert v2 == v2 % 256 + v3 * 0x100;
  }

  lemma RoundTrip64(value: nat)
    requires value < TWO_64
    ensures DecodeFixed64(EncodeFixed64(value)) == value
  {
    var v4 := value / 0x100000000;
    Quotients32(value);
    Quotients64(value);
    QuotientsTop(value);
    Digits(v4, value / 0x10000000000, value / 0x1000000000000, value / 0x100000000000000);
    Digits(value, value / 0x100, value / 0x10000, value / 0x1000000);
    assert value / 0x1000000 == value / 0x1000000 % 256 + v4 * 0x100;
  }
}
