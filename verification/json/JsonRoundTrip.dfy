/** Parsing a printed tree gives the tree back: a print is one way to write the tree in the grammar. */
module JsonRoundTrip {
  import opened Coding
  import opened Text
  import opened Utf
  import opened Json
  import opened JsonParse
  import opened JsonGrammar
  import opened JsonAccepts

  // ---- strings ----

  /** How a byte is printed. */
  function PieceOf(b: byte): Piece {
    if b == QUOTE || b == BACKSLASH then Letter(b)
    else if b == 8 then Letter(98)
    else if b == 12 then Letter(102)
    else if b == 10 then Letter(110)
    else if b == 13 then Letter(114)
    else if b == 9 then Letter(116)
    else if b < 32 then Code([92, 117, 48, 48, HexChar(b / 16), HexChar(b % 16)], b)
    else Plain(b)
  }

  lemma PieceIs(b: byte)
    ensures var p := PieceOf(b); FinePiece(p) && SpellPiece(p) == EscapeByte(b) && PieceBytes(p) == [b]
  {
    if PieceOf(b).Code? { ControlEscape(b); }
  }

  /** \u00XX below 32 is that byte. */
  lemma ControlEscape(b: byte)
    requires b < 32
    ensures Spelled([92, 117, 48, 48, HexChar(b / 16), HexChar(b % 16)], 0, b) && Utf8(b) == [b]
  {
    assert b / 0x1000 == 0 && b / 0x100 % 16 == 0 && b / 0x10 % 16 == b / 16;
    HexDigitStands(48, 0);
    HexDigitStands(HexChar(b / 16), b / 16);
    HexDigitStands(HexChar(b % 16), b % 16);
  }

  function PiecesFrom(s: Bytes, k: nat): seq<Piece>
    requires k <= |s|
    decreases |s| - k
  {
    if k == |s| then [] else [PieceOf(s[k])] + PiecesFrom(s, k + 1)
  }

  lemma {:induction false} PiecesAre(s: Bytes, k: nat)
    requires k <= |s|
    ensures FinePieces(PiecesFrom(s, k)) && SpellPieces(PiecesFrom(s, k)) == Escaped(s, k)
    ensures PiecesBytes(PiecesFrom(s, k)) == s[k..]
    decreases |s| - k
  {
    hide PieceOf, SpellPiece, PieceBytes, EscapeByte;
    if k < |s| {
      PieceIs(s[k]);
      PiecesAre(s, k + 1);
      assert PiecesFrom(s, k)[1..] == PiecesFrom(s, k + 1);
      assert s[k..] == [s[k]] + s[k + 1..];
    }
  }

  /** A string without NUL is one of the spellings of itself. */
  lemma QuotedIs(s: Bytes)
    requires NulFree(s)
    ensures var ps := PiecesFrom(s, 0); FinePieces(ps) && SpellString(ps) == Quoted(s) && StringOf(ps) == s
  {
    PiecesAre(s, 0);
    assert s[0..] == s;
  }

  lemma StringRoundTrip(c: Bytes, off: nat, s: Bytes)
    requires Terminated(c) && NulFree(s) && WordAt(c, off, Quoted(s)) && off < |c|
    ensures ParseString(c, off) == Parsed(s, off + |Quoted(s)|)
  {
    hide *;
    QuotedIs(s);
    AcceptsString(c, off, PiecesFrom(s, 0));
  }

  // ---- numbers ----

  lemma {:induction false} DecimalLength(n: nat, bound: nat, k: nat)
    requires n < bound && bound == Power10(k) && k > 0
    ensures |Decimal(n)| <= k
  {
    if n >= 10 { DecimalLength(n / 10, Power10(k - 1), k - 1); }
  }

  function Power10(k: nat): nat { if k == 0 then 1 else 10 * Power10(k - 1) }

  lemma Power10At10()
    ensures Power10(10) == 10000000000
  {
    assert Power10(3) == 1000;
    assert Power10(6) == 1000000;
    assert Power10(9) == 1000000000;
  }

  lemma IntegerIs(n: int)
    requires INT_MIN <= n <= INT_MAX
    ensures FineDigits(Integer(n)) && IntegerOf(Integer(n)) == n
  {
    var m := if n < 0 then -n else n;
    Power10At10();
    DecimalLength(m, Power10(10), 10);
    IntegerPlain(n);
  }

  lemma IntegerPlain(n: int)
    ensures PlainInteger(Integer(n)) && IntegerOf(Integer(n)) == n
  {
    var m := if n < 0 then -n else n;
    var d, s := Decimal(m), Integer(n);
    DecimalRoundTrip(m);
    assert LeadingDigits(d) == |d|;
    assert IsDigit(d[0]);
    if n < 0 { assert s[1..] == d; }
  }

  lemma NumberRoundTrip(c: Bytes, off: nat, n: int)
    requires Terminated(c) && INT_MIN <= n <= INT_MAX && WordAt(c, off, Integer(n)) && Ends(c, off + |Integer(n)|)
    ensures ParseNumber(c, off) == Parsed(Number(n), off + |Integer(n)|)
  {
    hide *;
    IntegerIs(n);
    AcceptsNumber(c, off, Integer(n));
  }

  // ---- trees ----

  /** How a tree is printed. */
  function FormOf(v: Value, d: nat, fmt: bool): Form
    decreases v, 1, 0
  {
    match v
    case Null => NullForm
    case False => FalseForm
    case True => TrueForm
    case Number(n) => Digits(Integer(n))
    case String(s) => Form.Text(PiecesFrom(s, 0))
    case Array(items) => if items == [] then Empty([]) else Elements(ElementsFrom(v, 0, d + 1, fmt))
    case Object(members) =>
      if members == [] then EmptyObject(Break(fmt) + Indent(d, fmt)) else Fields(FieldsFrom(v, 0, d, fmt))
  }

  function ElementsFrom(v: Value, k: nat, d: nat, fmt: bool): ElementList
    requires v.Array? && k < |v.items|
    decreases v, 0, |v.items| - k
  {
    var before, form := if k > 0 then Gap(SPACE, fmt) else [], FormOf(v.items[k], d, fmt);
    if k + 1 == |v.items| then LastElement(before, form, [])
    else Element(before, form, [], ElementsFrom(v, k + 1, d, fmt))
  }

  /** `d` is the depth outside. */
  function FieldsFrom(v: Value, k: nat, d: nat, fmt: bool): FieldList
    requires v.Object? && k < |v.members|
    decreases v, 0, |v.members| - k
  {
    var m := v.members[k];
    var before, key, gap := Break(fmt) + Indent(d + 1, fmt), PiecesFrom(m.key, 0), Gap(TAB, fmt);
    var form := FormOf(m.value, d + 1, fmt);
    if k + 1 == |v.members| then LastField(before, key, [], gap, form, Break(fmt) + Indent(d, fmt))
    else Field(before, key, [], gap, form, [], FieldsFrom(v, k + 1, d, fmt))
  }

  lemma BlanksAreBlank(d: nat, fmt: bool)
    ensures Blank(Gap(SPACE, fmt)) && Blank(Gap(TAB, fmt)) && Blank(Break(fmt) + Indent(d, fmt)) && Blank([])
  {
  }

  /** The print is that spelling, and it means the tree. */
  lemma {:induction false} PrintIs(v: Value, d: nat, fmt: bool)
    requires Clean(v)
    ensures var f := FormOf(v, d, fmt); Fine(f) && Spell(f) == Print(v, d, fmt) && Meaning(f) == v
    decreases v, 1, 0
  {
    match v
    case Null =>
    case False =>
    case True =>
    case Number(n) => IntegerIs(n);
    case String(s) => QuotedIs(s);
    case Array(_) => ArrayIs(v, d, fmt);
    case Object(_) => ObjectIs(v, d, fmt);
  }

  lemma {:induction false} ArrayIs(v: Value, d: nat, fmt: bool)
    requires v.Array? && Clean(v)
    ensures var f := FormOf(v, d, fmt); Fine(f) && Spell(f) == Print(v, d, fmt) && Meaning(f) == v
    decreases v, 0, |v.items| + 1
  {
    hide Clean, FineElements, SpellElements, ItemsFrom, ElementsFrom, ItemsOf, Blank;
    BlanksAreBlank(d, fmt);
    if v.items == [] {
      NoItems(v, d + 1, fmt);
    } else {
      ItemsAre(v, 0, d + 1, fmt);
      assert v.items[0..] == v.items;
    }
  }

  lemma {:induction false} ObjectIs(v: Value, d: nat, fmt: bool)
    requires v.Object? && Clean(v)
    ensures var f := FormOf(v, d, fmt); Fine(f) && Spell(f) == Print(v, d, fmt) && Meaning(f) == v
    decreases v, 0, |v.members| + 1
  {
    hide Clean, FineFields, SpellFields, MembersFrom, FieldsFrom, MembersOf, Blank, Break, Indent;
    BlanksAreBlank(d, fmt);
    Regroup([123], Break(fmt), MembersFrom(v, 0, d + 1, fmt), Indent(d, fmt), [125]);
    if v.members == [] {
      NoMembers(v, d + 1, fmt);
      assert Break(fmt) + [] == Break(fmt);
    } else {
      MembersAre(v, 0, d, fmt);
      assert v.members[0..] == v.members;
    }
  }

  lemma Regroup(s: Bytes, t: Bytes, u: Bytes, w: Bytes, x: Bytes)
    ensures s + t + u + w + x == s + ((t + u + w) + x)
  {
  }

  lemma NoItems(v: Value, d: nat, fmt: bool)
    requires v.Array? && v.items == []
    ensures ItemsFrom(v, 0, d, fmt) == []
  {
  }

  lemma NoMembers(v: Value, d: nat, fmt: bool)
    requires v.Object? && v.members == []
    ensures MembersFrom(v, 0, d, fmt) == []
  {
  }

  lemma ItemClean(v: Value, k: nat)
    requires v.Array? && k < |v.items| && Clean(v)
    ensures Clean(v.items[k])
  {
  }

  lemma {:induction false} ItemsAre(v: Value, k: nat, d: nat, fmt: bool)
    requires v.Array? && k < |v.items| && Clean(v)
    ensures var es := ElementsFrom(v, k, d, fmt);
            && FineElements(es) && ItemsOf(es) == v.items[k..]
            && SpellElements(es) == (if k > 0 then Gap(SPACE, fmt) else []) + ItemsFrom(v, k, d, fmt)
    decreases v, 0, |v.items| - k
  {
    hide *;
    BlanksAreBlank(d, fmt);
    ItemClean(v, k);
    PrintIs(v.items[k], d, fmt);
    if k + 1 < |v.items| { ItemsAre(v, k + 1, d, fmt); }
    ElementIs(v, k, d, fmt);
    assert v.items[k..] == [v.items[k]] + v.items[k + 1..];
    if k + 1 < |v.items| {
      NextItem(v, k, d, fmt);
    } else {
      LastItem(v, k, d, fmt);
      assert [v.items[k]] + [] == v.items[k..];
    }
  }

  lemma ElementIs(v: Value, k: nat, d: nat, fmt: bool)
    requires v.Array? && k < |v.items| && Fine(FormOf(v.items[k], d, fmt)) && Blank(Gap(SPACE, fmt)) && Blank([])
    requires k + 1 < |v.items| ==> FineElements(ElementsFrom(v, k + 1, d, fmt))
    ensures var es, form := ElementsFrom(v, k, d, fmt), FormOf(v.items[k], d, fmt);
            && FineElements(es)
            && ItemsOf(es) == [Meaning(form)]
                 + (if k + 1 < |v.items| then ItemsOf(ElementsFrom(v, k + 1, d, fmt)) else [])
            && SpellElements(es) == (if k > 0 then Gap(SPACE, fmt) else []) + (Spell(form) + ([] +
                 if k + 1 < |v.items| then [COMMA] + SpellElements(ElementsFrom(v, k + 1, d, fmt)) else []))
  {
    hide FormOf, Fine, Spell, Meaning, Blank, Gap;
  }

  lemma NextItem(v: Value, k: nat, d: nat, fmt: bool)
    requires v.Array? && k + 1 < |v.items|
    ensures ItemsFrom(v, k, d, fmt)
         == Print(v.items[k], d, fmt) + ([] + ([COMMA] + (Gap(SPACE, fmt) + ItemsFrom(v, k + 1, d, fmt))))
  {
    hide Print, Gap;
  }

  lemma LastItem(v: Value, k: nat, d: nat, fmt: bool)
    requires v.Array? && k + 1 == |v.items|
    ensures ItemsFrom(v, k, d, fmt) == Print(v.items[k], d, fmt) + ([] + [])
  {
    hide Print;
    assert ItemsFrom(v, k + 1, d, fmt) == [];
  }

  lemma {:induction false} MembersAre(v: Value, k: nat, d: nat, fmt: bool)
    requires v.Object? && k < |v.members| && Clean(v)
    ensures var fs := FieldsFrom(v, k, d, fmt);
            && FineFields(fs) && MembersOf(fs) == v.members[k..]
            && SpellFields(fs) == Break(fmt) + MembersFrom(v, k, d + 1, fmt) + Indent(d, fmt)
    decreases v, 0, |v.members| - k
  {
    hide *;
    var m := v.members[k];
    BlanksAreBlank(d + 1, fmt);
    BlanksAreBlank(d, fmt);
    MemberClean(v, k);
    PrintIs(m.value, d + 1, fmt);
    QuotedIs(m.key);
    assert v.members[k..] == [m] + v.members[k + 1..];
    if k + 1 < |v.members| { MembersAre(v, k + 1, d, fmt); }
    FieldIs(v, k, d, fmt);
    MemberSpelled(v, k, d, fmt);
    if k + 1 == |v.members| { assert [m] + [] == v.members[k..]; }
  }

  lemma FieldIs(v: Value, k: nat, d: nat, fmt: bool)
    requires v.Object? && k < |v.members| && Fine(FormOf(v.members[k].value, d + 1, fmt))
    requires FinePieces(PiecesFrom(v.members[k].key, 0)) && Blank(Break(fmt) + Indent(d + 1, fmt))
             && Blank(Gap(TAB, fmt)) && Blank([]) && Blank(Break(fmt) + Indent(d, fmt))
    requires k + 1 < |v.members| ==> FineFields(FieldsFrom(v, k + 1, d, fmt))
    ensures var fs, form, ps := FieldsFrom(v, k, d, fmt), FormOf(v.members[k].value, d + 1, fmt),
                PiecesFrom(v.members[k].key, 0);
            && FineFields(fs)
            && MembersOf(fs) == [Member(StringOf(ps), Meaning(form))]
                 + (if k + 1 < |v.members| then MembersOf(FieldsFrom(v, k + 1, d, fmt)) else [])
            && SpellFields(fs) == (Break(fmt) + Indent(d + 1, fmt))
                 + (SpellString(ps) + ([] + ([COLON] + (Gap(TAB, fmt) + (Spell(form) + (
                   if k + 1 < |v.members| then [] + ([COMMA] + SpellFields(FieldsFrom(v, k + 1, d, fmt)))
                   else (Break(fmt) + Indent(d, fmt)) + []))))))
  {
    hide FormOf, Fine, Spell, Meaning, Blank, Gap, FinePieces, StringOf, SpellString, PiecesFrom, Break, Indent;
  }

  /** A line break moved from behind each member to before it. */
  lemma MemberSpelled(v: Value, k: nat, d: nat, fmt: bool)
    requires v.Object? && k < |v.members|
    ensures Break(fmt) + MembersFrom(v, k, d + 1, fmt) + Indent(d, fmt)
         == (Break(fmt) + Indent(d + 1, fmt))
              + (Quoted(v.members[k].key) + ([] + ([COLON] + (Gap(TAB, fmt) + (Print(v.members[k].value, d + 1, fmt) + (
                if k + 1 < |v.members|
                then [] + ([COMMA] + (Break(fmt) + MembersFrom(v, k + 1, d + 1, fmt) + Indent(d, fmt)))
                else (Break(fmt) + Indent(d, fmt)) + []))))))
  {
    hide Print, Quoted, Gap, Break, Indent;
    var b, before, q, gap := Break(fmt), Indent(d + 1, fmt), Quoted(v.members[k].key), Gap(TAB, fmt);
    var p, comma := Print(v.members[k].value, d + 1, fmt), if k + 1 < |v.members| then [COMMA] else [];
    var rest, after := MembersFrom(v, k + 1, d + 1, fmt), Indent(d, fmt);
    assert MembersFrom(v, k, d + 1, fmt) == (before + q + [COLON] + gap + p + comma + b) + rest;
    BreakMoved(b, before, q, gap, p, comma, rest, after);
    if k + 1 == |v.members| {
      assert rest == [] && [] + (b + [] + after) == (b + after) + [];
    } else {
      assert [COMMA] + (b + rest + after) == [] + ([COMMA] + (b + rest + after));
    }
  }

  lemma BreakMoved(b: Bytes, before: Bytes, q: Bytes, gap: Bytes, p: Bytes, comma: Bytes, rest: Bytes, after: Bytes)
    ensures b + ((before + q + [COLON] + gap + p + comma + b) + rest) + after
         == (b + before) + (q + ([] + ([COLON] + (gap + (p + (comma + (b + rest + after)))))))
  {
    var m := before + q + [COLON] + gap + p + comma + b;
    var tail := rest + after;
    Assoc(m, rest, after);
    Assoc(b, m + rest, after);
    Assoc(before + q + [COLON] + gap + p + comma, b, tail);
    Assoc(before + q + [COLON] + gap + p, comma, b + tail);
    Assoc(before + q + [COLON] + gap, p, comma + (b + tail));
    Assoc(before + q + [COLON], gap, p + (comma + (b + tail)));
    Assoc(before + q, [COLON], gap + (p + (comma + (b + tail))));
    Assoc(before, q, [COLON] + (gap + (p + (comma + (b + tail)))));
    Assoc(b, before, q + ([COLON] + (gap + (p + (comma + (b + tail))))));
    Assoc(b, rest, after);
    assert [] + ([COLON] + (gap + (p + (comma + (b + tail))))) == [COLON] + (gap + (p + (comma + (b + tail))));
  }

  lemma Assoc(s: Bytes, t: Bytes, u: Bytes)
    ensures s + t + u == s + (t + u)
  {
  }

  lemma MemberClean(v: Value, k: nat)
    requires v.Object? && k < |v.members| && Clean(v)
    ensures NulFree(v.members[k].key) && Clean(v.members[k].value)
  {
  }

  /** A printed value inside a text parses back, or fails if it is nested too deep. */
  lemma ValueRoundTrip(c: Bytes, off: nat, v: Value, d: nat, fmt: bool, depth: nat)
    requires Terminated(c) && Clean(v) && depth <= NESTING_LIMIT
    requires WordAt(c, off, Print(v, d, fmt)) && Ends(c, off + |Print(v, d, fmt)|)
    ensures ParseValue(c, off, depth)
         == if Within(v, NESTING_LIMIT - depth) then Parsed(v, off + |Print(v, d, fmt)|) else Failed
  {
    hide FormOf, Fine, Spell, Meaning, Print, ParseValue, Within;
    PrintIs(v, d, fmt);
    AcceptsValue(c, off, FormOf(v, d, fmt), depth);
  }

  /** For every tree of null, booleans, 32-bit integers, NUL-free strings, arrays and objects, formatted or not:
      parsing the print gives the tree, or fails if it is nested deeper than 1000. */
  lemma TextRoundTrip(v: Value, fmt: bool)
    requires Clean(v)
    ensures ParseText(Print(v, 0, fmt)) == if Within(v, NESTING_LIMIT) then Parsed(v, |Print(v, 0, fmt)|) else Failed
  {
    hide FormOf, Fine, Spell, Meaning, Print, ParseText, Within;
    PrintIs(v, 0, fmt);
    AcceptsText([], FormOf(v, 0, fmt), []);
    assert [] + Print(v, 0, fmt) + [] == Print(v, 0, fmt);
  }

  lemma RoundTrip(v: Value, fmt: bool)
    requires Clean(v) && Within(v, NESTING_LIMIT)
    ensures ParseText(Print(v, 0, fmt)) == Parsed(v, |Print(v, 0, fmt)|)
  {
    TextRoundTrip(v, fmt);
  }

  /** The limit is exact: a printed tree parses if and only if it is nested at most 1000 deep. */
  lemma TooDeep(v: Value, fmt: bool)
    requires Clean(v)
    ensures ParseText(Print(v, 0, fmt)).Parsed? <==> Within(v, NESTING_LIMIT)
  {
    TextRoundTrip(v, fmt);
  }
}
