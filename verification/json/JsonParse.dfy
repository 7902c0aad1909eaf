/** What the parser makes of a text: values, the offset behind them, and where
    it gives up. The text ends with its terminating NUL. */
module JsonParse {
  import opened Coding
  import opened Text
  import opened Utf
  import opened Json

  /** NotModelled: a number that is not a plain integer of 32 bits. */
  datatype Parse<T> = Parsed(value: T, offset: nat) | Failed | NotModelled

  predicate Terminated(c: Bytes) { c != [] && c[|c| - 1] == 0 }

  // ---- whitespace ----

  function SkipFrom(c: Bytes, off: nat): (o: nat)
    requires off <= |c|
    ensures off <= o <= |c| && (o < |c| ==> c[o] > 32)
    ensures forall i :: off <= i < o ==> c[i] <= 32
    decreases |c| - off
  {
    if off < |c| && c[off] <= 32 then SkipFrom(c, off + 1) else off
  }

  /** buffer_skip_whitespace: everything up to a space, the NUL too; from the very end it steps back. */
  function Skip(c: Bytes, off: nat): (o: nat)
    requires off <= |c|
    ensures off <= o <= |c| && (off < |c| ==> o < |c|)
  {
    if off == |c| then off
    else if SkipFrom(c, off) == |c| then |c| - 1
    else SkipFrom(c, off)
  }

  // ---- strings ----

  /** The first pass: the closing quote, every backslash taking one character with it; -1 if there is none. */
  function ScanEnd(c: Bytes, e: nat): (r: int)
    requires e <= |c|
    ensures r == -1 || (e <= r < |c| && c[r] == QUOTE)
    decreases |c| - e
  {
    if e == |c| then -1
    else if c[e] == QUOTE then e
    else if c[e] == BACKSLASH then (if e + 1 >= |c| then -1 else ScanEnd(c, e + 2))
    else ScanEnd(c, e + 1)
  }

  function SimpleEscape(b: byte): int {
    if b == 98 then 8
    else if b == 102 then 12
    else if b == 110 then 10
    else if b == 114 then 13
    else if b == 116 then 9
    else if b == QUOTE || b == BACKSLASH || b == 47 then b
    else -1
  }

  /** The second pass: the bytes written from `p` up to the closing quote at `e`, or None where it fails. */
  function Unescape(c: Bytes, p: nat, e: nat): Option<Bytes>
    requires e < |c| && p <= e + 1
    decreases e + 1 - p
  {
    if p >= e then Some([])
    else if c[p] != BACKSLASH then Prepend([c[p]], Unescape(c, p + 1, e))
    else if c[p + 1] == 117 then
      match LiteralAt(c, p, e)
      case NoLiteral => None
      case Literal(length, cp) => Prepend(Utf8(cp), Unescape(c, p + length, e))
    else if SimpleEscape(c[p + 1]) < 0 then None
    else Prepend([SimpleEscape(c[p + 1]) as byte], Unescape(c, p + 2, e))
  }

  function Prepend(s: Bytes, t: Option<Bytes>): Option<Bytes> {
    match t
    case None => None
    case Some(r) => Some(s + r)
  }

  /** What a C string of these bytes is: it ends at the first NUL. */
  function CString(s: Bytes): (r: Bytes)
    ensures NulFree(s) ==> r == s
    ensures NulFree(r)
  {
    CStringFrom(s, 0)
  }

  function CStringFrom(s: Bytes, k: nat): (r: Bytes)
    requires k <= |s|
    ensures (forall i :: k <= i < |s| ==> s[i] != 0) ==> r == s[k..]
    ensures NulFree(r)
    decreases |s| - k
  {
    if k == |s| || s[k] == 0 then [] else [s[k]] + CStringFrom(s, k + 1)
  }

  function ParseString(c: Bytes, off: nat): (r: Parse<Bytes>)
    requires Terminated(c) && off < |c|
    ensures r.Parsed? ==> off + 1 < r.offset < |c|
  {
    if c[off] != QUOTE then Failed
    else
      var e := ScanEnd(c, off + 1);
      if e < 0 then Failed
      else
        match Unescape(c, off + 1, e)
        case None => Failed
        case Some(out) => Parsed(CString(out), e + 1)
  }

  // ---- numbers ----

  predicate NumberChar(b: byte) { IsDigit(b) || b == 43 || b == 45 || b == 101 || b == 69 || b == 46 }

  /** The end of the characters a number can have, at most 63 of them. */
  function NumberEnd(c: Bytes, off: nat, left: nat): (e: nat)
    requires off <= |c|
    ensures off <= e <= |c| && e <= off + left
    ensures forall i :: off <= i < e ==> NumberChar(c[i])
    ensures e < |c| && e < off + left ==> !NumberChar(c[e])
    decreases left
  {
    if left > 0 && off < |c| && NumberChar(c[off]) then NumberEnd(c, off + 1, left - 1) else off
  }

  /** An optional minus sign and digits. */
  predicate PlainInteger(s: Bytes) {
    var d := if s != [] && s[0] == 45 then s[1..] else s;
    d != [] && LeadingDigits(d) == |d|
  }

  function IntegerOf(s: Bytes): int
    requires PlainInteger(s)
  {
    if s[0] == 45 then -(ValueOf(s[1..], |s| - 1) as int) else ValueOf(s, |s|)
  }

  function ParseNumber(c: Bytes, off: nat): (r: Parse<Value>)
    requires Terminated(c) && off <= |c|
    ensures r.Parsed? ==> off < r.offset < |c|
  {
    var s := c[off..NumberEnd(c, off, 63)];
    if PlainInteger(s) then
      if INT_MIN <= IntegerOf(s) <= INT_MAX then Parsed(Number(IntegerOf(s)), off + |s|) else NotModelled
    else if forall i {:trigger s[i]} :: 0 <= i < |s| ==> !IsDigit(s[i]) then Failed
    else NotModelled
  }

  // ---- values ----

  predicate WordAt(c: Bytes, off: nat, word: Bytes) {
    off + |word| <= |c| && c[off..off + |word|] == word
  }

  predicate ByteAt(c: Bytes, off: nat, b: byte) { off < |c| && c[off] == b }

  function ParseValue(c: Bytes, off: nat, depth: nat): (r: Parse<Value>)
    requires Terminated(c) && off <= |c|
    ensures r.Parsed? ==> off < r.offset < |c|
    decreases |c| - off, 0
  {
    if WordAt(c, off, [110, 117, 108, 108]) then Parsed(Null, off + 4)
    else if WordAt(c, off, [102, 97, 108, 115, 101]) then Parsed(False, off + 5)
    else if WordAt(c, off, [116, 114, 117, 101]) then Parsed(True, off + 4)
    else if ByteAt(c, off, QUOTE) then
      match ParseString(c, off)
      case Parsed(s, o) => Parsed(String(s), o)
      case Failed => Failed
      case NotModelled => NotModelled
    else if off < |c| && (c[off] == 45 || IsDigit(c[off])) then ParseNumber(c, off)
    else if ByteAt(c, off, 91) then ParseArray(c, off, depth)
    else if ByteAt(c, off, 123) then ParseObject(c, off, depth)
    else Failed
  }

  function ParseArray(c: Bytes, off: nat, depth: nat): (r: Parse<Value>)
    requires Terminated(c) && off < |c|
    ensures r.Parsed? ==> off < r.offset < |c|
    decreases |c| - off - 1, 2
  {
    if depth >= NESTING_LIMIT then Failed
    else
      var first := Skip(c, off + 1);
      if ByteAt(c, first, 93) then Parsed(Array([]), first + 1)
      else if first >= |c| then Failed
      else
        match ParseItems(c, first, depth + 1)
        case Parsed(items, o) => Parsed(Array(items), o)
        case Failed => Failed
        case NotModelled => NotModelled
  }

  /** An element, and after a comma the others. */
  function ParseItems(c: Bytes, off: nat, depth: nat): (r: Parse<seq<Value>>)
    requires Terminated(c) && off <= |c|
    ensures r.Parsed? ==> off < r.offset < |c|
    decreases |c| - off, 1
  {
    match ParseValue(c, Skip(c, off), depth)
    case Failed => Failed
    case NotModelled => NotModelled
    case Parsed(v, o) =>
      var next := Skip(c, o);
      if ByteAt(c, next, COMMA) then
        match ParseItems(c, next + 1, depth)
        case Parsed(items, o') => Parsed([v] + items, o')
        case Failed => Failed
        case NotModelled => NotModelled
      else if ByteAt(c, next, 93) then Parsed([v], next + 1)
      else Failed
  }

  function ParseObject(c: Bytes, off: nat, depth: nat): (r: Parse<Value>)
    requires Terminated(c) && off < |c|
    ensures r.Parsed? ==> off < r.offset < |c|
    decreases |c| - off - 1, 2
  {
    if depth >= NESTING_LIMIT then Failed
    else
      var first := Skip(c, off + 1);
      if ByteAt(c, first, 125) then Parsed(Object([]), first + 1)
      else if first >= |c| then Failed
      else
        match ParseMembers(c, first, depth + 1)
        case Parsed(members, o) => Parsed(Object(members), o)
        case Failed => Failed
        case NotModelled => NotModelled
  }

  function ParseMembers(c: Bytes, off: nat, depth: nat): (r: Parse<seq<Member>>)
    requires Terminated(c) && off < |c|
    ensures r.Parsed? ==> off < r.offset < |c|
    decreases |c| - off, 1
  {
    match ParseMember(c, off, depth)
    case Failed => Failed
    case NotModelled => NotModelled
    case Parsed(m, o) =>
      var next := Skip(c, o);
      if ByteAt(c, next, COMMA) then
        match ParseMembers(c, next + 1, depth)
        case Parsed(members, o') => Parsed([m] + members, o')
        case Failed => Failed
        case NotModelled => NotModelled
      else if ByteAt(c, next, 125) then Parsed([m], next + 1)
      else Failed
  }

  /** A key, a colon and a value. */
  function ParseMember(c: Bytes, off: nat, depth: nat): (r: Parse<Member>)
    requires Terminated(c) && off < |c|
    ensures r.Parsed? ==> off < r.offset < |c|
    decreases |c| - off, 0
  {
    match ParseString(c, Skip(c, off))
    case Failed => Failed
    case NotModelled => NotModelled
    case Parsed(key, o) =>
      var colon := Skip(c, o);
      if !ByteAt(c, colon, COLON) then Failed
      else
        match ParseValue(c, Skip(c, colon + 1), depth)
        case Parsed(v, o') => Parsed(Member(key, v), o')
        case Failed => Failed
        case NotModelled => NotModelled
  }

  /** cJSON_Parse: a byte order mark and whitespace are passed over; what follows the value is not looked at. */
  function ParseText(text: Bytes): Parse<Value> {
    var c := text + [0];
    var off := if |c| > 4 && c[..3] == [0xEF, 0xBB, 0xBF] then 3 else 0;
    ParseValue(c, Skip(c, off), 0)
  }
}
