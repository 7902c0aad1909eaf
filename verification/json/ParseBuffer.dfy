/** The parser over its buffer: a moving offset, and strings unescaped into an
    array sized by a first pass. */
module ParseBuffers {
  import opened Coding
  import opened Text
  import opened Utf
  import opened Json
  import opened JsonParse

  // ---- how far the size estimate reaches ----

  /** The backslashes the first pass, begun at `q`, counts before `x`. */
  function Skipped(c: Bytes, q: nat, x: nat): (n: nat)
    requires x <= |c|
    ensures q + n <= (if x > q then x else q)
    decreases x - q
  {
    if q >= x then 0
    else if c[q] == BACKSLASH then 1 + (if q + 1 == x then 0 else Skipped(c, q + 2, x))
    else Skipped(c, q + 1, x)
  }

  /** One more character is at most one more backslash, and none if it is not one. */
  lemma {:induction false} SkippedOne(c: Bytes, q: nat, x: nat)
    requires x < |c|
    ensures Skipped(c, q, x) <= Skipped(c, q, x + 1) <= Skipped(c, q, x) + 1
    ensures c[x] != BACKSLASH ==> Skipped(c, q, x + 1) == Skipped(c, q, x)
    decreases x - q
  {
    if q < x {
      if c[q] != BACKSLASH {
        SkippedOne(c, q + 1, x);
      } else if q + 1 < x {
        SkippedOne(c, q + 2, x);
      }
    }
  }

  /** Two more characters are at most one more: what follows a counted backslash is not counted. */
  lemma {:induction false} SkippedTwo(c: Bytes, q: nat, x: nat)
    requires x + 1 < |c|
    ensures Skipped(c, q, x + 2) <= Skipped(c, q, x) + 1
    decreases x - q
  {
    if q < x {
      if c[q] != BACKSLASH {
        SkippedTwo(c, q + 1, x);
      } else if q + 1 < x {
        SkippedTwo(c, q + 2, x);
      } else {
        SkippedOne(c, q + 2, x + 1);
      }
    } else {
      SkippedOne(c, q, x + 1);
      if q == x && c[x] == BACKSLASH { assert Skipped(c, q, x + 2) == 1 + Skipped(c, q + 2, x + 2); }
    }
  }

  lemma {:induction false} SkippedGrows(c: Bytes, q: nat, x: nat, y: nat)
    requires x <= y <= |c|
    ensures Skipped(c, q, x) <= Skipped(c, q, y) <= Skipped(c, q, x) + (y - x)
    decreases y - x
  {
    if x < y {
      SkippedGrows(c, q, x, y - 1);
      SkippedOne(c, q, y - 1);
    }
  }

  lemma {:induction false} SkippedHalf(c: Bytes, q: nat, x: nat, n: nat)
    requires x + 2 * n <= |c|
    ensures Skipped(c, q, x + 2 * n) <= Skipped(c, q, x) + n
    decreases n
  {
    if n > 0 {
      SkippedHalf(c, q, x, n - 1);
      SkippedTwo(c, q, x + 2 * n - 2);
    }
  }

  /** The estimate: room for everything up to the quote, less one byte for each backslash, and the NUL. */
  function Allocation(c: Bytes, off: nat, e: nat): (n: int)
    requires off < e < |c|
    ensures n >= 2
  {
    e - off - Skipped(c, off + 1, e) + 1
  }

  /** What has been written by position `p` leaves room for the NUL. */
  lemma RoomLeft(c: Bytes, off: nat, e: nat, p: nat, o: nat)
    requires off < e < |c| && c[e] == QUOTE && off + 1 <= p <= e + 1
    requires o + Skipped(c, off + 1, p) <= p - (off + 1)
    ensures o < Allocation(c, off, e)
  {
    SkippedOne(c, off + 1, e);
    SkippedGrows(c, off + 1, p, e + 1);
  }

  class ParseBuffer {
    const content: Bytes
    var offset: nat
    var depth: nat

    constructor (content: Bytes)
      ensures this.content == content && offset == 0 && depth == 0
    {
      this.content, offset, depth := content, 0, 0;
    }

    /** buffer_skip_whitespace. */
    method SkipWhitespace()
      requires offset <= |content|
      modifies `offset
      ensures offset == Skip(content, old(offset))
    {
      if offset >= |content| {
        return;
      }
      while offset < |content| && content[offset] <= 32
        invariant old(offset) <= offset <= |content| && SkipFrom(content, offset) == SkipFrom(content, old(offset))
        decreases |content| - offset
      {
        offset := offset + 1;
      }
      if offset == |content| {
        offset := offset - 1;
      }
    }

    /** The first pass of parse_string: the closing quote, and how many backslashes count. */
    method FindEnd() returns (end: int, skipped: nat)
      requires offset < |content|
      ensures end == ScanEnd(content, offset + 1)
      ensures end >= 0 ==> skipped == Skipped(content, offset + 1, end)
    {
      var e := offset + 1;
      skipped := 0;
      while e < |content| && content[e] != QUOTE
        invariant offset + 1 <= e <= |content| && ScanEnd(content, e) == ScanEnd(content, offset + 1)
        invariant forall x {:trigger Skipped(content, e, x)} :: e <= x <= |content| ==>
                  Skipped(content, offset + 1, x) == skipped + Skipped(content, e, x)
        decreases |content| - e
      {
        if content[e] == BACKSLASH {
          if e + 1 >= |content| {
            return -1, 0;
          }
          SkippedPair(e);
          skipped := skipped + 1;
          e := e + 1;
        } else {
          SkippedSingle(e);
        }
        e := e + 1;
      }
      if e >= |content| {
        return -1, 0;
      }
      end := e;
      assert Skipped(content, e, e) == 0;
    }

    lemma SkippedPair(e: nat)
      requires e + 1 < |content| && content[e] == BACKSLASH
      ensures forall x {:trigger Skipped(content, e + 2, x)} :: e + 2 <= x <= |content| ==>
              Skipped(content, e, x) == 1 + Skipped(content, e + 2, x)
    {
    }

    lemma SkippedSingle(e: nat)
      requires e < |content| && content[e] != BACKSLASH
      ensures forall x {:trigger Skipped(content, e + 1, x)} :: e + 1 <= x <= |content| ==>
              Skipped(content, e, x) == Skipped(content, e + 1, x)
    {
    }

    /** parse_string: no write leaves the array the estimate allocates, whatever the text. */
    method ParseString() returns (ok: bool, s: Bytes)
      requires Terminated(content) && offset < |content|
      modifies `offset
      ensures ok ==> JsonParse.ParseString(content, old(offset)) == Parsed(s, offset)
      ensures !ok ==> JsonParse.ParseString(content, old(offset)) == Failed
    {
      if content[offset] != QUOTE {
        return false, [];
      }
      var end, skipped := FindEnd();
      if end < 0 {
        return false, [];
      }
      var allocation := end - offset - skipped;
      var output := new byte[allocation + 1];
      var length;
      ok, length := UnescapeInto(output, end);
      if !ok {
        return false, [];
      }
      output[length] := 0;
      s := CString(output[..length]);
      offset := end + 1;
    }

    /** The second pass of parse_string. */
    method UnescapeInto(output: array<byte>, e: nat) returns (ok: bool, o: nat)
      requires offset < e < |content| && content[e] == QUOTE && output.Length == Allocation(content, offset, e)
      modifies output
      ensures ok ==> o < output.Length && Unescape(content, offset + 1, e) == Some(output[..o])
      ensures !ok ==> Unescape(content, offset + 1, e) == None
    {
      var p := offset + 1;
      o := 0;
      ghost var whole := Unescape(content, offset + 1, e);
      NothingBefore(whole);
      assert output[..0] == [];
      while p < e
        invariant offset + 1 <= p <= e + 1 && o + Skipped(content, offset + 1, p) <= p - (offset + 1)
        invariant o < output.Length && whole == Prepend(output[..o], Unescape(content, p, e))
        decreases e + 1 - p
      {
        ok, p, o := UnescapeOne(output, e, p, o);
        if !ok {
          return;
        }
      }
      ok := true;
      assert Prepend(output[..o], Some([])) == Some(output[..o] + []);
      assert output[..o] + [] == output[..o];
    }

    lemma NothingBefore(t: Option<Bytes>)
      ensures Prepend([], t) == t
    {
      if t.Some? { assert [] + t.value == t.value; }
    }

    /** One character or escape of the second pass. */
    method UnescapeOne(output: array<byte>, e: nat, p0: nat, o0: nat) returns (ok: bool, p: nat, o: nat)
      requires offset < e < |content| && content[e] == QUOTE && output.Length == Allocation(content, offset, e)
      requires offset + 1 <= p0 < e && o0 + Skipped(content, offset + 1, p0) <= p0 - (offset + 1) && o0 < output.Length
      modifies output
      ensures !ok ==> Unescape(content, p0, e) == None
      ensures ok ==> p0 < p <= e + 1 && o < output.Length && o + Skipped(content, offset + 1, p) <= p - (offset + 1)
      ensures ok ==>
              Prepend(old(output[..o0]), Unescape(content, p0, e)) == Prepend(output[..o], Unescape(content, p, e))
    {
      p, o := p0, o0;
      if content[p] != BACKSLASH {
        SkippedOne(content, offset + 1, p);
        RoomLeft(content, offset, e, p + 1, o + 1);
        output[o] := content[p];
        Joined(old(output[..o0]), [content[p]], Unescape(content, p + 1, e));
        assert output[..o + 1] == old(output[..o0]) + [content[p]];
        return true, p + 1, o + 1;
      }
      if content[p + 1] == 117 {
        ok, p, o := UnescapeLiteral(output, e, p0, o0);
        return;
      }
      var b := SimpleEscape(content[p + 1]);
      if b < 0 {
        return false, p, o;
      }
      SkippedTwo(content, offset + 1, p);
      RoomLeft(content, offset, e, p + 2, o + 1);
      output[o] := b;
      Joined(old(output[..o0]), [b as byte], Unescape(content, p + 2, e));
      assert output[..o + 1] == old(output[..o0]) + [b as byte];
      return true, p + 2, o + 1;
    }

    lemma Joined(a: Bytes, s: Bytes, t: Option<Bytes>)
      ensures Prepend(a, Prepend(s, t)) == Prepend(a + s, t)
    {
      if t.Some? { assert a + (s + t.value) == a + s + t.value; }
    }

    /** A \\u escape: at least twice as many characters as bytes. */
    method UnescapeLiteral(output: array<byte>, e: nat, p0: nat, o0: nat) returns (ok: bool, p: nat, o: nat)
      requires offset < e < |content| && content[e] == QUOTE && output.Length == Allocation(content, offset, e)
      requires offset + 1 <= p0 < e && o0 + Skipped(content, offset + 1, p0) <= p0 - (offset + 1) && o0 < output.Length
      requires content[p0] == BACKSLASH && content[p0 + 1] == 117
      modifies output
      ensures !ok ==> Unescape(content, p0, e) == None
      ensures ok ==> p0 < p <= e + 1 && o < output.Length && o + Skipped(content, offset + 1, p) <= p - (offset + 1)
      ensures ok ==>
              Prepend(old(output[..o0]), Unescape(content, p0, e)) == Prepend(output[..o], Unescape(content, p, e))
    {
      ghost var l := LiteralAt(content, p0, e);
      if l.Literal? { LiteralRoom(e, p0, o0, l); }
      var length;
      length, o := Utf16LiteralToUtf8(content, p0, e, output, o0);
      if length == 0 {
        return false, p0, o0;
      }
      p := p0 + length;
      ok := true;
      Joined(old(output[..o0]), Utf8(l.codepoint), Unescape(content, p, e));
      assert output[..o] == output[..o0] + output[o0..o];
    }

    lemma LiteralRoom(e: nat, p: nat, o: nat, l: Literal)
      requires offset < e < |content| && content[e] == QUOTE && offset + 1 <= p < e
      requires o + Skipped(content, offset + 1, p) <= p - (offset + 1) && l == LiteralAt(content, p, e) && l.Literal?
      ensures var o' := o + |Utf8(l.codepoint)|; var p' := p + l.length;
              p' <= e && o' + Skipped(content, offset + 1, p') <= p' - (offset + 1)
                  && o' < Allocation(content, offset, e)
    {
      hide LiteralAt, Utf8;
      SkippedHalf(content, offset + 1, p, l.length / 2);
      RoomLeft(content, offset, e, p + l.length, o + |Utf8(l.codepoint)|);
    }

    /** parse_number, as far as plain integers go. */
    method ParseNumber() returns (r: Parse<Value>)
      requires Terminated(content) && offset <= |content|
      modifies `offset
      ensures r == JsonParse.ParseNumber(content, old(offset)) && (r.Parsed? ==> offset == r.offset)
    {
      var i := 0;
      while i < 63 && offset + i < |content| && NumberChar(content[offset + i])
        invariant 0 <= i <= 63 && offset == old(offset) && offset + i <= |content|
        invariant NumberEnd(content, offset + i, 63 - i) == NumberEnd(content, offset, 63)
      {
        i := i + 1;
      }
      var text := content[offset..offset + i];
      if PlainInteger(text) {
        if IntegerOf(text) < INT_MIN || IntegerOf(text) > INT_MAX {
          return NotModelled;
        }
        offset := offset + i;
        return Parsed(Number(IntegerOf(text)), offset);
      }
      if forall k {:trigger text[k]} :: 0 <= k < |text| ==> !IsDigit(text[k]) {
        return Failed;
      }
      return NotModelled;
    }

    /** parse_value. */
    method ParseValue() returns (r: Parse<Value>)
      requires Terminated(content) && offset <= |content|
      modifies this
      ensures r == JsonParse.ParseValue(content, old(offset), old(depth))
      ensures r.Parsed? ==> offset == r.offset && depth == old(depth)
      decreases |content| - offset, 1
    {
      if WordAt(content, offset, [110, 117, 108, 108]) {
        offset := offset + 4;
        return Parsed(Null, offset);
      }
      if WordAt(content, offset, [102, 97, 108, 115, 101]) {
        offset := offset + 5;
        return Parsed(False, offset);
      }
      if WordAt(content, offset, [116, 114, 117, 101]) {
        offset := offset + 4;
        return Parsed(True, offset);
      }
      if ByteAt(content, offset, QUOTE) {
        var ok, s := ParseString();
        return if ok then Parsed(String(s), offset) else Failed;
      }
      if offset < |content| && (content[offset] == 45 || IsDigit(content[offset])) {
        r := ParseNumber();
        return;
      }
      if ByteAt(content, offset, 91) {
        r := ParseArray();
        return;
      }
      if ByteAt(content, offset, 123) {
        r := ParseObject();
        return;
      }
      return Failed;
    }

    /** parse_array. */
    method ParseArray() returns (r: Parse<Value>)
      requires Terminated(content) && offset < |content|
      modifies this
      ensures r == JsonParse.ParseArray(content, old(offset), old(depth))
      ensures r.Parsed? ==> offset == r.offset && depth == old(depth)
      decreases |content| - offset, 0
    {
      hide ParseItems, Skip, Terminated;
      if depth >= NESTING_LIMIT {
        return Failed;
      }
      depth := depth + 1;
      offset := offset + 1;
      SkipWhitespace();
      if ByteAt(content, offset, 93) {
        depth := depth - 1;
        offset := offset + 1;
        return Parsed(Array([]), offset);
      }
      if offset >= |content| {
        offset := offset - 1;
        return Failed;
      }
      offset := offset - 1;
      var items := ParseElements();
      if items.Parsed? {
        depth := depth - 1;
      }
      r := match items
           case Parsed(list, o) => Parsed(Array(list), o)
           case Failed => Failed
           case NotModelled => NotModelled;
    }

    /** The loop of parse_array, from the character in front of the first element to behind the closing bracket. */
    method ParseElements() returns (r: Parse<seq<Value>>)
      requires Terminated(content) && offset + 1 < |content|
      modifies this
      ensures r == ParseItems(content, old(offset) + 1, old(depth))
      ensures r.Parsed? ==> offset == r.offset && depth == old(depth)
      decreases |content| - offset - 1, 2
    {
      hide ParseItems, After, JsonParse.ParseValue, Skip, Terminated;
      var items := [];
      ghost var whole := ParseItems(content, offset + 1, depth);
      AfterNothing(whole);
      var more := true;
      while more
        invariant old(offset) <= offset < |content| && depth == old(depth)
        invariant more ==> whole == After(items, ParseItems(content, offset + 1, depth))
        invariant !more ==> whole == if content[offset] == 93 then Parsed(items, offset + 1) else Failed
        decreases more, |content| - offset
      {
        ItemsUnfold(content, offset + 1, depth, items);
        offset := offset + 1;
        SkipWhitespace();
        var v := ParseValue();
        if !v.Parsed? {
          return if v.Failed? then Failed else NotModelled;
        }
        items := items + [v.value];
        SkipWhitespace();
        more := ByteAt(content, offset, COMMA);
        if more { CommaNotLast(content, offset); }
      }
      if content[offset] != 93 {
        return Failed;
      }
      offset := offset + 1;
      return Parsed(items, offset);
    }

    /** parse_object. */
    method ParseObject() returns (r: Parse<Value>)
      requires Terminated(content) && offset < |content|
      modifies this
      ensures r == JsonParse.ParseObject(content, old(offset), old(depth))
      ensures r.Parsed? ==> offset == r.offset && depth == old(depth)
      decreases |content| - offset, 0
    {
      hide ParseMembers, Skip, Terminated;
      if depth >= NESTING_LIMIT {
        return Failed;
      }
      depth := depth + 1;
      offset := offset + 1;
      SkipWhitespace();
      if ByteAt(content, offset, 125) {
        depth := depth - 1;
        offset := offset + 1;
        return Parsed(Object([]), offset);
      }
      if offset >= |content| {
        offset := offset - 1;
        return Failed;
      }
      offset := offset - 1;
      var members := ParseEntries();
      if members.Parsed? {
        depth := depth - 1;
      }
      r := match members
           case Parsed(list, o) => Parsed(Object(list), o)
           case Failed => Failed
           case NotModelled => NotModelled;
    }

    /** The loop of parse_object, from the character in front of the first key to behind the closing brace. */
    method ParseEntries() returns (r: Parse<seq<Member>>)
      requires Terminated(content) && offset + 1 < |content|
      modifies this
      ensures r == ParseMembers(content, old(offset) + 1, old(depth))
      ensures r.Parsed? ==> offset == r.offset && depth == old(depth)
      decreases |content| - offset - 1, 3
    {
      hide ParseMembers, After, JsonParse.ParseMember, Skip, Terminated;
      var members := [];
      ghost var whole := ParseMembers(content, offset + 1, depth);
      AfterNothing(whole);
      var more := true;
      while more
        invariant old(offset) <= offset < |content| && depth == old(depth)
        invariant more ==> offset + 1 < |content| && whole == After(members, ParseMembers(content, offset + 1, depth))
        invariant !more ==> whole == if content[offset] == 125 then Parsed(members, offset + 1) else Failed
        decreases more, |content| - offset
      {
        MembersUnfold(content, offset + 1, depth, members);
        offset := offset + 1;
        var m := ParseEntry();
        if !m.Parsed? {
          return if m.Failed? then Failed else NotModelled;
        }
        members := members + [m.value];
        SkipWhitespace();
        more := ByteAt(content, offset, COMMA);
        if more { CommaNotLast(content, offset); }
      }
      if content[offset] != 125 {
        return Failed;
      }
      offset := offset + 1;
      return Parsed(members, offset);
    }

    /** One turn of that loop: name, colon, value. */
    method ParseEntry() returns (r: Parse<Member>)
      requires Terminated(content) && offset < |content|
      modifies this
      ensures r == JsonParse.ParseMember(content, old(offset), old(depth))
      ensures r.Parsed? ==> offset == r.offset && depth == old(depth)
      decreases |content| - offset, 2
    {
      hide JsonParse.ParseString, JsonParse.ParseValue, Skip, Terminated;
      SkipWhitespace();
      var ok, key := ParseString();
      if !ok {
        return Failed;
      }
      SkipWhitespace();
      if !ByteAt(content, offset, COLON) {
        return Failed;
      }
      offset := offset + 1;
      SkipWhitespace();
      var v := ParseValue();
      r := match v
           case Parsed(value, o) => Parsed(Member(key, value), o)
           case Failed => Failed
           case NotModelled => NotModelled;
    }
  }

  lemma AfterNothing<T>(r: Parse<seq<T>>)
    ensures After([], r) == r
  {
    if r.Parsed? { assert [] + r.value == r.value; }
  }

  lemma CommaNotLast(c: Bytes, off: nat)
    requires Terminated(c) && ByteAt(c, off, COMMA)
    ensures off + 1 < |c|
  {
  }

  /** What the elements before and the next one make of the whole. */
  lemma ItemsUnfold(c: Bytes, off: nat, depth: nat, items: seq<Value>)
    requires Terminated(c) && off <= |c|
    ensures var whole := After(items, ParseItems(c, off, depth));
            match ParseValue(c, Skip(c, off), depth)
            case Failed => whole == Failed
            case NotModelled => whole == NotModelled
            case Parsed(v, o) =>
              var next := Skip(c, o);
              whole == if ByteAt(c, next, COMMA) then After(items + [v], ParseItems(c, next + 1, depth))
                       else if ByteAt(c, next, 93) then Parsed(items + [v], next + 1)
                       else Failed
  {
    hide ParseValue, Skip;
    var r := ParseValue(c, Skip(c, off), depth);
    if r.Parsed? && ByteAt(c, Skip(c, r.offset), COMMA) {
      AfterBoth(items, [r.value], ParseItems(c, Skip(c, r.offset) + 1, depth));
    }
  }

  lemma AfterBoth<T>(a: seq<T>, b: seq<T>, r: Parse<seq<T>>)
    ensures After(a, After(b, r)) == After(a + b, r)
  {
    if r.Parsed? { assert a + (b + r.value) == a + b + r.value; }
  }

  lemma MembersUnfold(c: Bytes, off: nat, depth: nat, members: seq<Member>)
    requires Terminated(c) && off < |c|
    ensures var whole := After(members, ParseMembers(c, off, depth));
            match ParseMember(c, off, depth)
            case Failed => whole == Failed
            case NotModelled => whole == NotModelled
            case Parsed(m, o) =>
              var next := Skip(c, o);
              if ByteAt(c, next, COMMA) then next + 1 < |c|
                  && whole == After(members + [m], ParseMembers(c, next + 1, depth))
              else whole == if ByteAt(c, next, 125) then Parsed(members + [m], next + 1) else Failed
  {
    hide ParseMember, Skip;
    var r := ParseMember(c, off, depth);
    if r.Parsed? && ByteAt(c, Skip(c, r.offset), COMMA) {
      CommaNotLast(c, Skip(c, r.offset));
      AfterBoth(members, [r.value], ParseMembers(c, Skip(c, r.offset) + 1, depth));
    }
  }

  function After<T>(items: seq<T>, r: Parse<seq<T>>): Parse<seq<T>> {
    match r
    case Parsed(rest, o) => Parsed(items + rest, o)
    case Failed => Failed
    case NotModelled => NotModelled
  }
}
