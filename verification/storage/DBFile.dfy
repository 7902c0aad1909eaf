/** One data file as a byte sequence: reading a record at an offset, appending one. */
module DBFiles {
  import opened Coding
  import opened Entries

  datatype ReadResult = Record(entry: Entry, size: nat) | EndOfFile | BadCrc(key: Bytes)

  /** `size` bytes at `offset`, if the file has them. */
  predicate Has(data: Bytes, offset: nat, size: nat) { offset + size <= |data| }

  predicate Missing(data: Bytes, at: nat, size: nat) { size > 0 && !Has(data, at, size) }

  /** A field's bytes, empty if it has none or they are missing. */
  function Field(data: Bytes, at: nat, size: nat): Bytes {
    if size > 0 && Has(data, at, size) then data[at..at + size] else []
  }

  /** What Read does. A missing key is not noticed; a missing header, value or extra is. */
  function ReadAt(data: Bytes, offset: nat): ReadResult {
    if !Has(data, offset, ENTRY_HEADER_SIZE) then EndOfFile
    else ReadFields(data, offset + ENTRY_HEADER_SIZE, Decode(data[offset..offset + ENTRY_HEADER_SIZE]))
  }

  function ReadFields(data: Bytes, atKey: nat, h: Header): ReadResult {
    var atValue := atKey + h.keySize;
    var atExtra := atValue + h.valueSize;
    if Missing(data, atValue, h.valueSize) || Missing(data, atExtra, h.extraSize) then EndOfFile
    else
      var key, value := Field(data, atKey, h.keySize), Field(data, atValue, h.valueSize);
      if Checksum(value) != h.crc32 then BadCrc(key)
      else Record(Entry(key, value, Field(data, atExtra, h.extraSize), h.state, h.timeStamp),
          Size(h.keySize, h.valueSize, h.extraSize))
  }

  class DBFile {
    const Id: nat
    var data: Bytes          // the file
    var Offset: nat
    var WriteOffset: nat

    ghost predicate Valid()
      reads this
    {
      WriteOffset == |data|
    }

    /** Opens the file with the content it has. */
    constructor (fileId: nat, data: Bytes)
      ensures Valid() && Id == fileId && this.data == data && Offset == 0
    {
      Id, this.data, Offset, WriteOffset := fileId, data, 0, |data|;
    }

    /** pread: some of the bytes asked for, none only at the end of the file. */
    method Pread(offset: nat, n: nat) returns (got: Bytes)
      requires n > 0
      ensures |got| <= n && offset + |got| <= |data| + (if got == [] then offset else 0)
      ensures got != [] ==> got == data[offset..offset + |got|]
      ensures got == [] <==> offset >= |data|
    {
      if offset >= |data| {
        return [];
      }
      var most := if n < |data| - offset then n else |data| - offset;
      var some: int := *;
      var count := if 1 <= some <= most then some else most;
      return data[offset..offset + count];
    }

    /** ReadBuf: all the bytes asked for, or the end of the file. */
    method ReadBuf(offset0: nat, size: nat) returns (ok: bool, result: Bytes)
      requires size > 0
      modifies `Offset
      ensures ok <==> Has(data, offset0, size)
      ensures ok ==> result == data[offset0..offset0 + size] && Offset == old(Offset) + size
      ensures !ok ==> Offset == old(Offset)
    {
      var nleft, offset := size, offset0;
      result := [];
      while nleft > 0
        invariant 0 <= nleft <= size && offset == offset0 + size - nleft && Offset == old(Offset)
        invariant nleft < size ==> offset <= |data|
        invariant offset <= |data| ==> result == data[offset0..offset]
        invariant nleft == size ==> result == []
      {
        var nread := Pread(offset, nleft);
        if nread == [] {
          return false, [];
        }
        result := result + nread;
        nleft := nleft - |nread|;
        offset := offset + |nread|;
      }
      Offset := Offset + size;
      ok := true;
    }

    /** Read. */
    method Read(offset: nat) returns (r: ReadResult)
      modifies `Offset
      ensures r == ReadAt(data, offset)
    {
      var ok, buf := ReadBuf(offset, ENTRY_HEADER_SIZE);
      if !ok {
        return EndOfFile;
      }
      r := ReadBody(offset + ENTRY_HEADER_SIZE, Decode(buf));
    }

    /** Read, past the header: key, value and extra, then the checksum. */
    method ReadBody(offset0: nat, h: Header) returns (r: ReadResult)
      modifies `Offset
      ensures r == ReadFields(data, offset0, h)
    {
      hide Checksum, Size;
      var offset := offset0;
      var ok, buf: Bytes := true, [];
      var key, value, extra: Bytes := [], [], [];
      if h.keySize > 0 {
        ok, buf := ReadBuf(offset, h.keySize);
        if ok {
          key := buf;
        }
      }
      offset := offset + h.keySize;
      if h.valueSize > 0 {
        ok, value := ReadBuf(offset, h.valueSize);
        if !ok {
          return EndOfFile;
        }
      }
      offset := offset + h.valueSize;
      if h.extraSize > 0 {
        ok, extra := ReadBuf(offset, h.extraSize);
        if !ok {
          return EndOfFile;
        }
      }
      if Checksum(value) != h.crc32 {
        return BadCrc(key);
      }
      return Record(Entry(key, value, extra, h.state, h.timeStamp), Size(h.keySize, h.valueSize, h.extraSize));
    }

    /** Write: the record's bytes go to the end, however many at a time. */
    method Write(entry: Entry, txId: nat)
      requires Valid() && Entries.Fits(entry) && txId < TWO_64
      modifies `data, `WriteOffset
      ensures Valid() && data == old(data) + Encode(entry, txId)
    {
      hide Encode;
      var buf := Encode(entry, txId);
      var done, size := 0, |buf|;
      while size > 0
        invariant 0 <= size <= |buf| && done == |buf| - size
        invariant data == old(data) + buf[..done] && WriteOffset == |data|
      {
        var some: int := *;
        var n := if 1 <= some <= size then some else size;
        data := data + buf[done..done + n];
        WriteOffset := WriteOffset + n;
        done := done + n;
        size := size - n;
      }
      assert buf[..done] == buf;
    }
  }
}
