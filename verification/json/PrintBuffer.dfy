/** The printer: one growing buffer, every piece reserved before it is written. */
module PrintBuffers {
  import opened Coding
  import opened Utf
  import opened Json

  /** No more than a few bytes short of what a buffer can have. */
  predicate TooLong(end: nat) { end + 8 > INT_MAX }

  /** How many more characters a byte takes than itself: the first pass. */
  function EscapeCost(b: byte): nat {
    if b == 34 || b == 92 || b == 8 || b == 12 || b == 10 || b == 13 || b == 9 then 1
    else if b < 32 then 5
    else 0
  }

  /** The first pass counts what the second one writes. */
  lemma CostIsLength(b: byte)
    ensures |EscapeByte(b)| == 1 + EscapeCost(b)
  {
  }

  class PrintBuffer {
    var buffer: array<byte>
    var offset: nat
    var depth: nat
    const format: bool

    ghost predicate Valid()
      reads this
    {
      offset < buffer.Length
    }

    /** print's first buffer. */
    constructor (format: bool)
      ensures Valid() && offset == 0 && depth == 0 && this.format == format && fresh(buffer)
    {
      this.format := format;
      buffer := new byte[256];
      offset, depth := 0, 0;
    }

    /** What has been printed: `pre`, and after it `t` with a NUL, the offset somewhere in `t`. */
    ghost predicate Pending(pre: Bytes, t: Bytes)
      reads `buffer, `offset, buffer
    {
      |pre| <= offset <= |pre| + |t| < buffer.Length && buffer[..|pre| + |t|] == pre + t && buffer[|pre| + |t|] == 0
    }

    /** What has been printed is exactly `s`. */
    ghost predicate Out(s: Bytes)
      reads `buffer, `offset, buffer
    {
      offset == |s| < buffer.Length && buffer[..offset] == s
    }

    /** ensure: room for `needed` bytes and one more, in this buffer or a larger one with the same content. */
    method Ensure(needed: nat, ghost pre: Bytes) returns (ok: bool)
      requires Out(pre)
      modifies this
      ensures ok <==> needed <= INT_MAX && (offset + needed + 1 <= old(buffer.Length) || offset + needed + 1 <= INT_MAX)
      ensures Out(pre) && offset == old(offset) && depth == old(depth)
      ensures ok ==> offset + needed + 1 <= buffer.Length
      ensures buffer == old(buffer) || fresh(buffer)
    {
      if needed > INT_MAX {
        return false;
      }
      var total := needed + offset + 1;
      if total <= buffer.Length {
        return true;
      }
      var newsize;
      if total > INT_MAX / 2 {
        if total <= INT_MAX {
          newsize := INT_MAX;
        } else {
          return false;
        }
      } else {
        newsize := total * 2;
      }
      var newbuffer := new byte[newsize];
      var i := 0;
      while i < buffer.Length
        invariant Out(pre) && buffer == old(buffer) && offset == old(offset) && depth == old(depth)
        invariant 0 <= i <= buffer.Length < newsize && newbuffer[..i] == buffer[..i]
      {
        newbuffer[i] := buffer[i];
        i := i + 1;
      }
      assert newbuffer[..offset] == newbuffer[..i][..offset];
      buffer := newbuffer;
      return true;
    }

    /** strcpy and memcpy: bytes at a place that has been reserved. */
    method Put(at: nat, s: Bytes)
      requires at + |s| <= buffer.Length
      modifies buffer
      ensures buffer[..at] == old(buffer[..at]) && buffer[at..at + |s|] == s
      ensures buffer[at + |s|..] == old(buffer[at + |s|..])
    {
      var i := 0;
      while i < |s|
        invariant 0 <= i <= |s| && buffer[..at] == old(buffer[..at]) && buffer[at..at + i] == s[..i]
        invariant buffer[at + i..] == old(buffer[at + i..])
      {
        ghost var before := buffer[..];
        buffer[at + i] := s[i];
        assert buffer[..] == before[at + i := s[i]];
        i := i + 1;
      }
    }

    /** update_offset: to the NUL behind what was printed. */
    method UpdateOffset(ghost pre: Bytes, ghost t: Bytes)
      requires Pending(pre, t) && NulFree(t)
      modifies `offset
      ensures Out(pre + t)
    {
      ghost var end := |pre| + |t|;
      while buffer[offset] != 0
        invariant |pre| <= offset <= end && Pending(pre, t)
        decreases end - offset
      {
        offset := offset + 1;
      }
      NulAtEnd(pre, t);
    }

    lemma NulAtEnd(pre: Bytes, t: Bytes)
      requires Pending(pre, t) && NulFree(t) && buffer[offset] == 0
      ensures offset == |pre| + |t|
    {
    }

    /** A fixed text: reserved with its NUL, copied, the offset left for later. */
    method PrintWord(word: Bytes, ghost pre: Bytes) returns (ok: bool)
      requires Out(pre) && |word| <= 8
      modifies this, buffer
      ensures ok ==> Pending(pre, word)
      ensures !ok ==> TooLong(|pre| + |word|)
      ensures depth == old(depth) && (buffer == old(buffer) || fresh(buffer))
    {
      ok := Ensure(|word| + 1, pre);
      if ok {
        Put(offset, word + [0]);
        Placed(pre, word, [0]);
      }
    }

    /** `t` and then a NUL, written behind `pre`. */
    lemma Placed(pre: Bytes, t: Bytes, rest: Bytes)
      requires offset == |pre| && |pre| + |t| + |rest| <= buffer.Length && rest != [] && rest[0] == 0
      requires buffer[..|pre|] == pre && buffer[|pre|..|pre| + |t + rest|] == t + rest
      ensures Pending(pre, t)
    {
      var end := |pre| + |t|;
      assert buffer[|pre|..|pre| + |t + rest|][..|t|] == buffer[|pre|..end];
      assert buffer[..end] == buffer[..|pre|] + buffer[|pre|..end];
      assert buffer[end] == buffer[|pre|..|pre| + |t + rest|][|t|];
    }

    /** print_number, on an integer. */
    method PrintNumber(n: int, ghost pre: Bytes) returns (ok: bool)
      requires Out(pre) && INT_MIN <= n <= INT_MAX
      modifies this, buffer
      ensures ok ==> Pending(pre, Integer(n))
      ensures !ok ==> TooLong(|pre| + |Integer(n)|)
      ensures depth == old(depth) && (buffer == old(buffer) || fresh(buffer))
    {
      var digits := Integer(n);
      ok := Ensure(|digits| + 1, pre);
      if ok {
        Put(offset, digits + [0]);
        Placed(pre, digits, [0]);
        offset := offset + |digits|;
      }
    }

    /** The first pass of print_string_ptr. */
    method CountEscapes(input: Bytes) returns (escapes: nat)
      ensures |Escaped(input, 0)| == |input| + escapes
      ensures escapes == 0 ==> Escaped(input, 0) == input
    {
      escapes := 0;
      var i := 0;
      while i < |input|
        invariant 0 <= i <= |input| && |Escaped(input, 0)| == |Escaped(input, i)| + i + escapes
        invariant escapes == 0 ==> forall j {:trigger input[j]} :: 0 <= j < i ==> EscapeCost(input[j]) == 0
      {
        CostIsLength(input[i]);
        escapes := escapes + EscapeCost(input[i]);
        i := i + 1;
      }
      if escapes == 0 { NothingEscaped(input, 0); }
    }

    /** print_string_ptr: with nothing to escape a copy, otherwise byte by byte. */
    method PrintString(input: Bytes, ghost pre: Bytes) returns (ok: bool)
      requires Out(pre) && NulFree(input)
      modifies this, buffer
      ensures ok ==> Pending(pre, Quoted(input))
      ensures !ok ==> TooLong(|pre| + |Quoted(input)|)
      ensures depth == old(depth) && (buffer == old(buffer) || fresh(buffer))
    {
      var escapes := CountEscapes(input);
      var outputLength := |input| + escapes;
      ok := Ensure(outputLength + 3, pre);
      if !ok {
        return;
      }
      if escapes == 0 {
        CopyPlain(input, pre);
      } else {
        WriteQuoted(input, outputLength, pre);
      }
    }

    method CopyPlain(input: Bytes, ghost pre: Bytes)
      requires Out(pre) && Escaped(input, 0) == input && offset + |input| + 3 <= buffer.Length
      modifies buffer
      ensures Pending(pre, Quoted(input))
    {
      Put(offset, [QUOTE] + input + [QUOTE, 0]);
      assert [QUOTE] + input + [QUOTE, 0] == Quoted(input) + [0];
      Placed(pre, Quoted(input), [0]);
    }

    method WriteQuoted(input: Bytes, outputLength: nat, ghost pre: Bytes)
      requires Out(pre) && NulFree(input) && |Escaped(input, 0)| == outputLength
               && offset + outputLength + 3 <= buffer.Length
      modifies buffer
      ensures Pending(pre, Quoted(input))
    {
      hide Escaped, Pending;
      Put(offset, [QUOTE]);
      Advanced(pre, [QUOTE], offset + 1);
      WriteEscaped(input, outputLength, pre + [QUOTE]);
      Put(offset + 1 + outputLength, [QUOTE, 0]);
      Between(pre, Escaped(input, 0));
      Placed(pre, Quoted(input), [0]);
    }

    lemma Between(pre: Bytes, t: Bytes)
      requires offset == |pre| && |pre| + |t| + 3 <= buffer.Length
      requires buffer[..|pre| + 1 + |t|] == pre + [QUOTE] + t && buffer[|pre| + 1 + |t|..|pre| + |t| + 3] == [QUOTE, 0]
      ensures buffer[..|pre|] == pre && buffer[|pre|..|pre| + |t| + 3] == ([QUOTE] + t + [QUOTE]) + [0]
    {
      var end := |pre| + 1 + |t|;
      assert buffer[..|pre|] == buffer[..end][..|pre|];
      assert buffer[|pre|..end + 2] == buffer[..end][|pre|..] + buffer[end..end + 2];
    }

    lemma NulFreeIs(s: Bytes)
      requires NulFree(s)
      ensures forall i {:trigger s[i]} :: 0 <= i < |s| ==> s[i] != 0
    {
    }

    /** The second pass. */
    method WriteEscaped(input: Bytes, outputLength: nat, ghost pre: Bytes)
      requires NulFree(input) && |Escaped(input, 0)| == outputLength && |pre| == offset + 1
               && |pre| + outputLength + 2 <= buffer.Length
      requires buffer[..|pre|] == pre
      modifies buffer
      ensures buffer[..|pre| + outputLength] == pre + Escaped(input, 0)
    {
      hide Escaped, NulFree;
      var i, pos := 0, offset + 1;
      NulFreeIs(input);
      while i < |input|
        invariant 0 <= i <= |input| && pos + |Escaped(input, i)| == |pre| + outputLength
        invariant |pre| <= pos && buffer[..pos] + Escaped(input, i) == pre + Escaped(input, 0)
      {
        var b := input[i];
        EscapedFrom(input, i);
        ghost var before := buffer[..pos];
        var next := WriteByte(b, pos);
        Advanced(before, EscapeByte(b), next);
        assert before + (EscapeByte(b) + Escaped(input, i + 1)) == (before + EscapeByte(b)) + Escaped(input, i + 1);
        pos := next;
        i := i + 1;
      }
      EscapedEnds(input);
      assert buffer[..pos] + [] == buffer[..pos];
    }

    lemma EscapedFrom(s: Bytes, i: nat)
      requires i < |s|
      ensures Escaped(s, i) == EscapeByte(s[i]) + Escaped(s, i + 1)
    {
    }

    lemma EscapedEnds(s: Bytes)
      ensures Escaped(s, |s|) == []
    {
    }

    /** One byte of the second pass; below 32 sprintf leaves a NUL behind its digits. */
    method WriteByte(b: byte, pos: nat) returns (next: nat)
      requires b != 0 && pos + |EscapeByte(b)| + 1 <= buffer.Length
      modifies buffer
      ensures next == pos + |EscapeByte(b)| && buffer[..pos] == old(buffer[..pos]) && buffer[pos..next] == EscapeByte(b)
    {
      if b > 31 && b != 34 && b != 92 {
        Put(pos, [b]);
        next := pos + 1;
      } else if b == 92 || b == 34 || b == 8 || b == 12 || b == 10 || b == 13 || b == 9 {
        Put(pos, [92, ShortEscape(b)]);
        next := pos + 2;
      } else {
        var text := [92, 117, 48, 48, HexChar(b / 16), HexChar(b % 16)];
        Put(pos, text + [0]);
        next := pos + 6;
        assert buffer[pos..next] == buffer[pos..pos + 7][..6];
      }
    }

    lemma Advanced(before: Bytes, t: Bytes, pos: nat)
      requires |before| + |t| == pos <= buffer.Length && buffer[..|before|] == before && buffer[|before|..pos] == t
      ensures buffer[..pos] == before + t
    {
      assert buffer[..pos] == buffer[..|before|] + buffer[|before|..pos];
    }

    // ---- values ----

    /** A piece of `needed` bytes or fewer, with or without a NUL behind it, and the offset moved past it. */
    method Append(piece: Bytes, needed: nat, nul: bool, ghost pre: Bytes) returns (ok: bool)
      requires Out(pre) && |piece| <= needed <= |piece| + 2
      modifies this, buffer
      ensures ok ==> Out(pre + piece)
      ensures !ok ==> TooLong(|pre| + |piece|)
      ensures depth == old(depth) && (buffer == old(buffer) || fresh(buffer))
    {
      ok := Ensure(needed, pre);
      if !ok {
        return;
      }
      var text := piece + if nul then [0] else [];
      Put(offset, text);
      offset := offset + |piece|;
      assert buffer[|pre|..|pre| + |text|][..|piece|] == buffer[|pre|..offset];
      Advanced(pre, piece, offset);
    }

    /** The last piece, its NUL written and the offset left in front of it. */
    method Finish(piece: Bytes, needed: nat, ghost pre: Bytes, ghost done: Bytes) returns (ok: bool)
      requires Out(pre + done) && |piece| <= needed <= |piece| + 2
      modifies this, buffer
      ensures ok ==> Pending(pre, done + piece)
      ensures !ok ==> TooLong(|pre| + |done + piece|)
      ensures depth == old(depth) && (buffer == old(buffer) || fresh(buffer))
    {
      ok := Ensure(needed, pre + done);
      if !ok {
        return;
      }
      Put(offset, piece + [0]);
      Placed(pre + done, piece, [0]);
      assert pre + (done + piece) == (pre + done) + piece;
    }

    /** print_value. */
    method PrintValue(v: Value, ghost pre: Bytes) returns (ok: bool)
      requires Out(pre) && Clean(v)
      modifies this, buffer
      ensures ok ==> Pending(pre, Print(v, old(depth), format)) && depth == old(depth)
      ensures !ok ==> TooLong(|pre| + |Print(v, old(depth), format)|)
      ensures buffer == old(buffer) || fresh(buffer)
      decreases v, 1
    {
      hide Pending, Out, TooLong;
      match v
      case Null =>
        ok := PrintWord([110, 117, 108, 108], pre);
      case False =>
        ok := PrintWord([102, 97, 108, 115, 101], pre);
      case True =>
        ok := PrintWord([116, 114, 117, 101], pre);
      case Number(n) =>
        ok := PrintNumber(n, pre);
      case String(s) =>
        ok := PrintString(s, pre);
      case Array(_) =>
        ok := PrintArray(v, pre);
      case Object(_) =>
        ok := PrintObject(v, pre);
    }

    lemma LongerToo(a: nat, b: nat)
      requires TooLong(a) && a <= b
      ensures TooLong(b)
    {
    }

    /** print_array. */
    method PrintArray(v: Value, ghost pre: Bytes) returns (ok: bool)
      requires v.Array? && Out(pre) && Clean(v)
      modifies this, buffer
      ensures ok ==> Pending(pre, Print(v, old(depth), format)) && depth == old(depth)
      ensures !ok ==> TooLong(|pre| + |Print(v, old(depth), format)|)
      ensures buffer == old(buffer) || fresh(buffer)
      decreases v, 0
    {
      hide *;
      ghost var t, d := Print(v, depth, format), depth + 1;
      ArrayText(v, depth, format);
      ok := Append([91], 1, false, pre);
      if !ok {
        LongerToo(|pre| + 1, |pre| + |t|);
        return;
      }
      depth := depth + 1;
      ghost var done: Bytes := [91];
      var k := 0;
      while k < |v.items|
        invariant k <= |v.items| && depth == d && Out(pre + done) && (buffer == old(buffer) || fresh(buffer))
        invariant done + ItemsFrom(v, k, d, format) + [93] == t
      {
        ItemClean(v, k);
        ItemText(v, k, d, format);
        ghost var piece := Print(v.items[k], d, format);
        ok := PrintValue(v.items[k], pre + done);
        if !ok {
          LongerToo(|pre + done| + |piece|, |pre| + |t|);
          return;
        }
        PrintNulFree(v.items[k], d, format);
        UpdateOffset(pre + done, piece);
        Grown(pre, done, piece);
        done := done + piece;
        if k + 1 < |v.items| {
          var sep := [COMMA] + if format then [SPACE] else [];
          SepIs(sep, format);
          ok := Append(sep, |sep| + 1, true, pre + done);
          if !ok {
            LongerToo(|pre + done| + |sep|, |pre| + |t|);
            return;
          }
          Grown(pre, done, sep);
          done := done + sep;
        }
        k := k + 1;
      }
      ItemsEnd(v, d, format);
      assert done + [] + [93] == done + [93];
      ok := Finish([93], 2, pre, done);
      depth := depth - 1;
    }

    lemma Grown(pre: Bytes, done: Bytes, piece: Bytes)
      ensures pre + done + piece == pre + (done + piece)
    {
    }

    lemma ItemClean(v: Value, k: nat)
      requires v.Array? && k < |v.items| && Clean(v)
      ensures Clean(v.items[k])
    {
    }

    lemma ArrayText(v: Value, d: nat, fmt: bool)
      requires v.Array?
      ensures Print(v, d, fmt) == [91] + ItemsFrom(v, 0, d + 1, fmt) + [93]
    {
    }

    lemma ItemText(v: Value, k: nat, d: nat, fmt: bool)
      requires v.Array? && k < |v.items|
      ensures k + 1 < |v.items| ==> forall a: Bytes {:trigger a + ItemsFrom(v, k, d, fmt)} ::
                a + ItemsFrom(v, k, d, fmt) == a + Print(v.items[k], d, fmt) + ([COMMA] + Gap(SPACE, fmt))
                    + ItemsFrom(v, k + 1, d, fmt)
      ensures k + 1 == |v.items| ==> forall a: Bytes {:trigger a + ItemsFrom(v, k, d, fmt)} ::
                a + ItemsFrom(v, k, d, fmt) == a + Print(v.items[k], d, fmt) + ItemsFrom(v, k + 1, d, fmt)
    {
    }

    lemma ItemsEnd(v: Value, d: nat, fmt: bool)
      requires v.Array?
      ensures ItemsFrom(v, |v.items|, d, fmt) == []
    {
    }

    lemma SepIs(sep: Bytes, fmt: bool)
      requires sep == [COMMA] + if fmt then [SPACE] else []
      ensures sep == [COMMA] + Gap(SPACE, fmt)
    {
    }

    /** print_object. */
    method PrintObject(v: Value, ghost pre: Bytes) returns (ok: bool)
      requires v.Object? && Out(pre) && Clean(v)
      modifies this, buffer
      ensures ok ==> Pending(pre, Print(v, old(depth), format)) && depth == old(depth)
      ensures !ok ==> TooLong(|pre| + |Print(v, old(depth), format)|)
      ensures buffer == old(buffer) || fresh(buffer)
      decreases v, 0
    {
      hide *;
      ghost var t, d := Print(v, depth, format), depth + 1;
      ghost var close := Indent(depth, format) + [125];
      ObjectText(v, depth, format);
      var open := [123] + if format then [NEWLINE] else [];
      BreakIs(open, format);
      ok := Append(open, |open| + 1, false, pre);
      if !ok {
        LongerToo(|pre| + |open|, |pre| + |t|);
        return;
      }
      depth := depth + 1;
      ghost var done := open;
      var k := 0;
      while k < |v.members|
        invariant k <= |v.members| && depth == d && Out(pre + done) && (buffer == old(buffer) || fresh(buffer))
        invariant done + (MembersFrom(v, k, d, format) + close) == t
      {
        MembersText(v, k, d, format, done, close);
        ok := PrintMember(v, k, pre + done);
        if !ok {
          LongerToo(|pre + done| + |MemberText(v, k, d, format)|, |pre| + |t|);
          return;
        }
        Grown(pre, done, MemberText(v, k, d, format));
        done := done + MemberText(v, k, d, format);
        k := k + 1;
      }
      MembersEnd(v, d, format, done, close);
      var tail := (if format then Tabs(depth - 1) else []) + [125];
      CloseIs(tail, d, format);
      ok := Finish(tail, if format then depth + 1 else 2, pre, done);
      depth := depth - 1;
    }

    lemma ObjectText(v: Value, d: nat, fmt: bool)
      requires v.Object?
      ensures Print(v, d, fmt) == ([123] + Break(fmt)) + (MembersFrom(v, 0, d + 1, fmt) + (Indent(d, fmt) + [125]))
    {
    }

    lemma BreakIs(open: Bytes, fmt: bool)
      requires open == [123] + if fmt then [NEWLINE] else []
      ensures open == [123] + Break(fmt)
    {
    }

    lemma CloseIs(tail: Bytes, d: nat, fmt: bool)
      requires d > 0 && tail == (if fmt then Tabs(d - 1) else []) + [125]
      ensures tail == Indent(d - 1, fmt) + [125] && |tail| == if fmt then d else 1
    {
    }

    lemma MembersText(v: Value, k: nat, d: nat, fmt: bool, done: Bytes, close: Bytes)
      requires v.Object? && k < |v.members|
      ensures done + (MembersFrom(v, k, d, fmt) + close) == (done + MemberText(v, k, d, fmt))
              + (MembersFrom(v, k + 1, d, fmt) + close)
    {
      hide MemberText;
      var piece, rest := MemberText(v, k, d, fmt), MembersFrom(v, k + 1, d, fmt);
      assert MembersFrom(v, k, d, fmt) == piece + rest;
      assert done + ((piece + rest) + close) == (done + piece) + (rest + close);
    }

    lemma MembersEnd(v: Value, d: nat, fmt: bool, done: Bytes, close: Bytes)
      requires v.Object?
      ensures done + (MembersFrom(v, |v.members|, d, fmt) + close) == done + close
    {
      assert MembersFrom(v, |v.members|, d, fmt) == [];
    }

    /** One turn of print_object's loop: indentation, key, colon, value, comma and line break. */
    method PrintMember(v: Value, k: nat, ghost pre: Bytes) returns (ok: bool)
      requires v.Object? && k < |v.members| && Out(pre) && Clean(v)
      modifies this, buffer
      ensures ok ==> Out(pre + MemberText(v, k, depth, format)) && depth == old(depth)
      ensures !ok ==> TooLong(|pre| + |MemberText(v, k, old(depth), format)|)
      ensures buffer == old(buffer) || fresh(buffer)
      decreases v, 0, 0
    {
      hide *;
      ghost var d := depth;
      MemberClean(v, k);
      MemberPieces(v, k, d, format);
      ghost var total := MemberText(v, k, d, format);
      ghost var done := Name(v.members[k].key, d, format);
      ok := PrintName(v.members[k].key, pre);
      if !ok {
        LongerToo(|pre| + |done|, |pre| + |total|);
        return;
      }
      ghost var text := Print(v.members[k].value, d, format);
      ok := PrintValue(v.members[k].value, pre + done);
      if !ok {
        LongerToo(|pre + done| + |text|, |pre| + |total|);
        return;
      }
      PrintNulFree(v.members[k].value, d, format);
      UpdateOffset(pre + done, text);
      Grown(pre, done, text);
      done := done + text;
      var tail := (if k + 1 < |v.members| then [COMMA] else []) + (if format then [NEWLINE] else []);
      TailIs(tail, v, k, format);
      ok := Append(tail, |tail| + 1, true, pre + done);
      if !ok {
        LongerToo(|pre + done| + |tail|, |pre| + |total|);
        return;
      }
      Grown(pre, done, tail);
    }

    /** Indentation, key and colon. */
    ghost function Name(key: Bytes, d: nat, fmt: bool): Bytes {
      Indent(d, fmt) + (Quoted(key) + ([COLON] + Gap(TAB, fmt)))
    }

    lemma NameIs(key: Bytes, d: nat, fmt: bool)
      ensures Name(key, d, fmt) == Indent(d, fmt) + (Quoted(key) + ([COLON] + Gap(TAB, fmt)))
    {
    }

    method PrintName(key: Bytes, ghost pre: Bytes) returns (ok: bool)
      requires Out(pre) && NulFree(key)
      modifies this, buffer
      ensures ok ==> Out(pre + Name(key, old(depth), format))
      ensures !ok ==> TooLong(|pre| + |Name(key, old(depth), format)|)
      ensures depth == old(depth) && (buffer == old(buffer) || fresh(buffer))
    {
      hide *;
      ghost var d := depth;
      ghost var indent, name := Indent(d, format), Quoted(key) + ([COLON] + Gap(TAB, format));
      NameIs(key, d, format);
      if format {
        ok := Append(Tabs(depth), depth, false, pre);
        TabsAre(d);
        if !ok {
          LongerToo(|pre| + |indent|, |pre| + |indent + name|);
          return;
        }
      }
      IndentIs(pre, d, format);
      ok := PrintKey(key, pre + indent);
      Grown(pre, indent, name);
      if !ok {
        assert |pre + indent| + |name| == |pre| + |indent + name|;
      }
    }

    /** A key and what stands between it and the value. */
    method PrintKey(key: Bytes, ghost pre: Bytes) returns (ok: bool)
      requires Out(pre) && NulFree(key)
      modifies this, buffer
      ensures ok ==> Out(pre + (Quoted(key) + ([COLON] + Gap(TAB, format))))
      ensures !ok ==> TooLong(|pre| + |Quoted(key) + ([COLON] + Gap(TAB, format))|)
      ensures depth == old(depth) && (buffer == old(buffer) || fresh(buffer))
    {
      hide *;
      ok := PrintString(key, pre);
      if !ok {
        LongerToo(|pre| + |Quoted(key)|, |pre| + |Quoted(key) + ([COLON] + Gap(TAB, format))|);
        return;
      }
      QuotedNulFree(key);
      UpdateOffset(pre, Quoted(key));
      var colon := [COLON] + if format then [TAB] else [];
      ColonIs(colon, format);
      ok := Append(colon, |colon|, false, pre + Quoted(key));
      Grown(pre, Quoted(key), colon);
    }

    lemma ColonIs(colon: Bytes, fmt: bool)
      requires colon == [COLON] + if fmt then [TAB] else []
      ensures colon == [COLON] + Gap(TAB, fmt)
    {
    }

    lemma TailIs(tail: Bytes, v: Value, k: nat, fmt: bool)
      requires v.Object? && tail == (if k + 1 < |v.members| then [COMMA] else []) + (if fmt then [NEWLINE] else [])
      ensures tail == (if k + 1 < |v.members| then [COMMA] else []) + Break(fmt)
    {
    }

    lemma TabsAre(d: nat)
      ensures |Tabs(d)| == d && Indent(d, true) == Tabs(d)
    {
    }

    lemma IndentIs(pre: Bytes, d: nat, fmt: bool)
      ensures !fmt ==> pre + Indent(d, fmt) == pre
      ensures fmt ==> pre + Indent(d, fmt) == pre + Tabs(d)
    {
    }

    lemma MemberClean(v: Value, k: nat)
      requires v.Object? && k < |v.members| && Clean(v)
      ensures NulFree(v.members[k].key) && Clean(v.members[k].value)
    {
    }

    lemma MemberPieces(v: Value, k: nat, d: nat, fmt: bool)
      requires v.Object? && k < |v.members|
      ensures MemberText(v, k, d, fmt)
           == Name(v.members[k].key, d, fmt) + Print(v.members[k].value, d, fmt)
              + ((if k + 1 < |v.members| then [COMMA] else []) + Break(fmt))
    {
    }
  }

  /** print: the text of the tree, unless it is as long as a buffer can be. */
  method PrintTree(item: Value, format: bool) returns (ok: bool, printed: Bytes)
    requires Clean(item)
    ensures ok ==> printed == Print(item, 0, format)
    ensures !ok ==> TooLong(|Print(item, 0, format)|)
  {
    var p := new PrintBuffer(format);
    assert p.buffer[..p.offset] == [];
    ok := p.PrintValue(item, []);
    if !ok {
      return false, [];
    }
    PrintNulFree(item, 0, format);
    p.UpdateOffset([], Print(item, 0, format));
    assert [] + Print(item, 0, format) == Print(item, 0, format);
    printed := p.buffer[..p.offset];
  }

  function ShortEscape(b: byte): byte
    requires b == 92 || b == 34 || b == 8 || b == 12 || b == 10 || b == 13 || b == 9
  {
    if b == 8 then 98
    else if b == 12 then 102
    else if b == 10 then 110
    else if b == 13 then 114
    else if b == 9 then 116
    else b
  }

  lemma {:induction false} NothingEscaped(s: Bytes, k: nat)
    requires k <= |s| && forall j {:trigger s[j]} :: k <= j < |s| ==> EscapeCost(s[j]) == 0
    ensures Escaped(s, k) == s[k..]
    decreases |s| - k
  {
    if k < |s| {
      NothingEscaped(s, k + 1);
      assert s[k..] == [s[k]] + s[k + 1..];
    }
  }
}
