/** The parser takes every text of the grammar for the value it means. */
module JsonAccepts {
  import opened Coding
  import opened Text
  import opened Utf
  import opened Json
  import opened JsonParse
  import opened JsonGrammar

  // ---- places in the text ----

  lemma WordSplit(c: Bytes, off: nat, s: Bytes, t: Bytes)
    requires WordAt(c, off, s + t)
    ensures WordAt(c, off, s) && WordAt(c, off + |s|, t)
  {
    var w := c[off..off + |s + t|];
    assert c[off..off + |s|] == w[..|s|] == s;
    assert c[off + |s|..off + |s| + |t|] == w[|s|..] == t;
  }

  lemma WordByte(c: Bytes, off: nat, s: Bytes, i: nat)
    requires WordAt(c, off, s) && i < |s|
    ensures off + |s| <= |c| && c[off + i] == s[i]
  {
    assert c[off..off + |s|][i] == c[off + i];
  }

  lemma WordEnds(c: Bytes, off: nat, s: Bytes)
    requires WordAt(c, off, s)
    ensures off + |s| <= |c|
  {
  }

  lemma SkipIs(c: Bytes, off: nat, o: nat)
    requires off <= o < |c| && c[o] > 32 && forall i :: off <= i < o ==> c[i] <= 32
    ensures Skip(c, off) == o
    decreases o - off
  {
    if off < o { SkipIs(c, off + 1, o); }
  }

  /** A blank, and behind it a byte that is none. */
  lemma SkipBlank(c: Bytes, off: nat, blank: Bytes)
    requires Blank(blank) && WordAt(c, off, blank) && off + |blank| < |c| && c[off + |blank|] > 32
    ensures Skip(c, off) == off + |blank|
  {
    forall i | off <= i < off + |blank| ensures c[i] <= 32 {
      WordByte(c, off, blank, i - off);
      assert blank[i - off] as char in {' ', '\t', '\n', '\r'};
    }
    SkipIs(c, off, off + |blank|);
  }

  // ---- strings ----

  /** The parser takes exactly the letters of the standard, for the bytes they mean. */
  lemma LettersDecode(b: byte)
    ensures SimpleEscape(b) == if b as char in LETTERS then LETTERS[b as char] as int else -1
  {
  }

  lemma EscapesMoved(c: Bytes, p: nat, text: Bytes, k: nat, u: nat)
    requires WordAt(c, p, text) && Escapes(text, k, u)
    ensures Escapes(c, p + k, u)
  {
    hide Stands;
    WordByte(c, p, text, k);
    WordByte(c, p, text, k + 1);
    WordByte(c, p, text, k + 2);
    WordByte(c, p, text, k + 3);
    WordByte(c, p, text, k + 4);
    WordByte(c, p, text, k + 5);
  }

  lemma SpelledMoved(c: Bytes, p: nat, text: Bytes, cp: nat)
    requires WordAt(c, p, text) && Spelled(text, 0, cp)
    ensures Spelled(c, p, cp)
  {
    hide Escapes, WordAt;
    if cp < 0x10000 {
      EscapesMoved(c, p, text, 0, cp);
    } else {
      var bits := cp - 0x10000;
      EscapesMoved(c, p, text, 0, 0xD800 + bits / 0x400);
      EscapesMoved(c, p, text, 6, 0xDC00 + bits % 0x400);
    }
  }

  lemma ScanEscape(c: Bytes, p: nat, u: nat)
    requires Escapes(c, p, u) && p + 6 < |c|
    ensures ScanEnd(c, p) == ScanEnd(c, p + 6)
  {
    HexDigitStands(c[p + 2], u / 0x1000);
    HexDigitStands(c[p + 3], u / 0x100 % 16);
    HexDigitStands(c[p + 4], u / 0x10 % 16);
    HexDigitStands(c[p + 5], u % 16);
    hide Stands;
    assert c[p] == BACKSLASH && ScanEnd(c, p) == ScanEnd(c, p + 2);
    assert ScanEnd(c, p + 2) == ScanEnd(c, p + 3);
    assert ScanEnd(c, p + 3) == ScanEnd(c, p + 4);
    assert ScanEnd(c, p + 4) == ScanEnd(c, p + 5);
  }

  lemma ScanPiece(c: Bytes, p: nat, piece: Piece)
    requires FinePiece(piece) && WordAt(c, p, SpellPiece(piece)) && p + |SpellPiece(piece)| < |c|
    ensures ScanEnd(c, p) == ScanEnd(c, p + |SpellPiece(piece)|)
  {
    hide Escapes;
    WordByte(c, p, SpellPiece(piece), 0);
    match piece
    case Plain(b) =>
    case Letter(letter) =>
    case Code(text, cp) =>
      SpelledMoved(c, p, text, cp);
      if cp < 0x10000 {
        ScanEscape(c, p, cp);
      } else {
        var bits := cp - 0x10000;
        ScanEscape(c, p, 0xD800 + bits / 0x400);
        ScanEscape(c, p + 6, 0xDC00 + bits % 0x400);
      }
  }

  lemma QuoteEnds(c: Bytes, p: nat)
    requires p < |c| && c[p] == QUOTE
    ensures ScanEnd(c, p) == p
  {
  }

  lemma {:induction false} ScanPieces(c: Bytes, p: nat, ps: seq<Piece>)
    requires FinePieces(ps) && WordAt(c, p, SpellPieces(ps) + [QUOTE])
    ensures ScanEnd(c, p) == p + |SpellPieces(ps)|
    decreases |ps|
  {
    hide WordAt, ScanEnd, SpellPiece, FinePiece;
    if ps == [] {
      WordByte(c, p, [] + [QUOTE], 0);
      QuoteEnds(c, p);
    } else {
      var s, rest := SpellPiece(ps[0]), SpellPieces(ps[1..]) + [QUOTE];
      assert SpellPieces(ps) + [QUOTE] == s + rest;
      WordEnds(c, p, s + rest);
      WordSplit(c, p, s, rest);
      ScanPiece(c, p, ps[0]);
      ScanPieces(c, p + |s|, ps[1..]);
    }
  }

  lemma UnescapePiece(c: Bytes, p: nat, e: nat, piece: Piece)
    requires FinePiece(piece) && WordAt(c, p, SpellPiece(piece)) && p + |SpellPiece(piece)| <= e < |c|
    ensures Unescape(c, p, e) == Prepend(PieceBytes(piece), Unescape(c, p + |SpellPiece(piece)|, e))
  {
    hide Spelled, LiteralAt, Utf8;
    WordByte(c, p, SpellPiece(piece), 0);
    match piece
    case Plain(b) =>
    case Letter(letter) =>
      WordByte(c, p, SpellPiece(piece), 1);
      LettersDecode(letter);
    case Code(text, cp) =>
      SpelledMoved(c, p, text, cp);
      WellFormedLiteral(c, p, e, cp);
      SpelledStarts(c, p, cp);
  }

  lemma SpelledStarts(c: Bytes, p: nat, cp: nat)
    requires Spelled(c, p, cp)
    ensures p + 1 < |c| && c[p] == BACKSLASH && c[p + 1] == 117
  {
  }

  lemma UnescapeEnds(c: Bytes, e: nat)
    requires e < |c|
    ensures Unescape(c, e, e) == Some([])
  {
  }

  lemma {:induction false} UnescapePieces(c: Bytes, p: nat, e: nat, ps: seq<Piece>)
    requires FinePieces(ps) && e < |c| && e == p + |SpellPieces(ps)| && WordAt(c, p, SpellPieces(ps))
    ensures Unescape(c, p, e) == Some(PiecesBytes(ps))
    decreases |ps|
  {
    hide WordAt, Unescape, SpellPiece, FinePiece, PieceBytes;
    if ps == [] {
      UnescapeEnds(c, e);
    } else {
      var s := SpellPiece(ps[0]);
      WordSplit(c, p, s, SpellPieces(ps[1..]));
      UnescapePiece(c, p, e, ps[0]);
      UnescapePieces(c, p + |s|, e, ps[1..]);
    }
  }

  /** A string in any spelling: its bytes up to a NUL, and the offset behind the closing quote. */
  lemma AcceptsString(c: Bytes, off: nat, ps: seq<Piece>)
    requires Terminated(c) && FinePieces(ps) && WordAt(c, off, SpellString(ps)) && off < |c|
    ensures ParseString(c, off) == Parsed(StringOf(ps), off + |SpellString(ps)|)
  {
    hide SpellPieces, ScanEnd, Unescape, WordAt, PiecesBytes, FinePieces;
    var t := SpellPieces(ps);
    WordSplit(c, off, [QUOTE], t + [QUOTE]);
    WordByte(c, off, [QUOTE], 0);
    ScanPieces(c, off + 1, ps);
    WordSplit(c, off + 1, t, [QUOTE]);
    WordByte(c, off + 1 + |t|, [QUOTE], 0);
    UnescapePieces(c, off + 1, off + 1 + |t|, ps);
  }

  // ---- numbers ----

  /** What may follow a value: nothing a number could go on with. */
  predicate Ends(c: Bytes, off: nat) { off < |c| && !NumberChar(c[off]) }

  lemma {:induction false} NumberEndIs(c: Bytes, off: nat, e: nat, left: nat)
    requires off <= e < |c| && e - off <= left && !NumberChar(c[e]) && forall i :: off <= i < e ==> NumberChar(c[i])
    ensures NumberEnd(c, off, left) == e
    decreases e - off
  {
    if off < e { NumberEndIs(c, off + 1, e, left - 1); }
  }

  lemma DigitsAreNumber(text: Bytes)
    requires PlainInteger(text)
    ensures text != [] && (text[0] == 45 || IsDigit(text[0])) && forall i :: 0 <= i < |text| ==> NumberChar(text[i])
  {
    if text[0] == 45 {
      forall i | 0 <= i < |text| ensures NumberChar(text[i]) {
        if i > 0 { assert IsDigit(text[1..][i - 1]); }
      }
    }
  }

  lemma AcceptsNumber(c: Bytes, off: nat, text: Bytes)
    requires Terminated(c) && FineDigits(text) && WordAt(c, off, text) && Ends(c, off + |text|)
    ensures ParseNumber(c, off) == Parsed(Number(IntegerOf(text)), off + |text|)
  {
    DigitsAreNumber(text);
    forall i | off <= i < off + |text| ensures NumberChar(c[i]) { WordByte(c, off, text, i - off); }
    NumberEndIs(c, off, off + |text|, 63);
  }

  // ---- values ----

  lemma NoWord(c: Bytes, off: nat, word: Bytes)
    requires off < |c| && word != []
    ensures WordAt(c, off, word) ==> c[off] == word[0]
  {
    if WordAt(c, off, word) { WordByte(c, off, word, 0); }
  }

  /** A text that starts with none of n, f and t is no word. */
  lemma NoWords(c: Bytes, off: nat)
    requires off < |c| && c[off] != 110 && c[off] != 102 && c[off] != 116
    ensures !WordAt(c, off, [110, 117, 108, 108]) && !WordAt(c, off, [102, 97, 108, 115, 101])
            && !WordAt(c, off, [116, 114, 117, 101])
  {
    NoWord(c, off, [110, 117, 108, 108]);
    NoWord(c, off, [102, 97, 108, 115, 101]);
    NoWord(c, off, [116, 114, 117, 101]);
  }

  /** How a value starts. */
  lemma SpellStarts(f: Form)
    requires Fine(f)
    ensures Spell(f) != [] && 32 < Spell(f)[0] < 128 && Spell(f)[0] != 93 && Spell(f)[0] != 125
  {
    if f.Digits? { DigitsAreNumber(f.text); }
  }

  predicate AllWithin(vs: seq<Value>, n: nat) { forall i {:trigger vs[i]} :: 0 <= i < |vs| ==> Within(vs[i], n) }

  predicate MembersWithin(ms: seq<Member>, n: nat) {
    forall i {:trigger ms[i]} :: 0 <= i < |ms| ==> Within(ms[i].value, n)
  }

  /** What the parser gives for the text of `f`: the meaning, or a failure if it is nested too deep. */
  function Taken(f: Form, depth: nat, end: nat): Parse<Value>
    requires Fine(f) && depth <= NESTING_LIMIT
  {
    if Within(Meaning(f), NESTING_LIMIT - depth) then Parsed(Meaning(f), end) else Failed
  }

  /** A value in any spelling, inside a text. */
  lemma {:induction false} AcceptsValue(c: Bytes, off: nat, f: Form, depth: nat)
    requires Terminated(c) && Fine(f) && depth <= NESTING_LIMIT
    requires WordAt(c, off, Spell(f)) && Ends(c, off + |Spell(f)|)
    ensures ParseValue(c, off, depth) == Taken(f, depth, off + |Spell(f)|)
    decreases f, 1
  {
    hide WordAt, ParseArray, ParseObject, ParseString, ParseNumber, FineDigits, FinePieces, SpellString, NumberChar;
    SpellStarts(f);
    WordByte(c, off, Spell(f), 0);
    match f
    case NullForm =>
    case FalseForm => NoWord(c, off, [110, 117, 108, 108]);
    case TrueForm =>
      NoWord(c, off, [110, 117, 108, 108]);
      NoWord(c, off, [102, 97, 108, 115, 101]);
    case Digits(text) =>
      DigitsStart(text);
      NoWords(c, off);
      AcceptsNumber(c, off, text);
    case Text(pieces) =>
      QuoteStarts(pieces);
      NoWords(c, off);
      AcceptsString(c, off, pieces);
    case Empty(_) =>
      NoWords(c, off);
      AcceptsArray(c, off, f, depth);
    case Elements(_) =>
      NoWords(c, off);
      AcceptsArray(c, off, f, depth);
    case EmptyObject(_) =>
      NoWords(c, off);
      AcceptsObject(c, off, f, depth);
    case Fields(_) =>
      NoWords(c, off);
      AcceptsObject(c, off, f, depth);
  }

  lemma DigitsStart(text: Bytes)
    requires FineDigits(text)
    ensures text != [] && (text[0] == 45 || IsDigit(text[0]))
  {
    DigitsAreNumber(text);
  }

  lemma QuoteStarts(ps: seq<Piece>)
    ensures |SpellString(ps)| >= 2 && SpellString(ps)[0] == QUOTE
  {
  }

  // ---- one unfolding of the parser ----

  lemma ArrayStep(c: Bytes, off: nat, depth: nat)
    requires Terminated(c) && off < |c| && depth < NESTING_LIMIT
    ensures var first := Skip(c, off + 1);
            && (ByteAt(c, first, 93) ==> ParseArray(c, off, depth) == Parsed(Array([]), first + 1))
            && (first < |c| && c[first] != 93 && ParseItems(c, first, depth + 1).Parsed? ==>
                  var r := ParseItems(c, first, depth + 1);
                  ParseArray(c, off, depth) == Parsed(Array(r.value), r.offset))
            && (first < |c| && c[first] != 93 && ParseItems(c, first, depth + 1).Failed? ==>
                  ParseArray(c, off, depth) == Failed)
  {
    hide ParseItems, Skip;
  }

  lemma ItemsStep(c: Bytes, off: nat, depth: nat, v: Value, o: nat)
    requires Terminated(c) && off <= |c| && o <= |c| && ParseValue(c, Skip(c, off), depth) == Parsed(v, o)
    ensures var next := Skip(c, o);
            && (ByteAt(c, next, COMMA) && ParseItems(c, next + 1, depth).Parsed? ==>
                  var r := ParseItems(c, next + 1, depth); ParseItems(c, off, depth) == Parsed([v] + r.value, r.offset))
            && (ByteAt(c, next, COMMA) && ParseItems(c, next + 1, depth).Failed? ==>
                 ParseItems(c, off, depth) == Failed)
            && (ByteAt(c, next, 93) ==> ParseItems(c, off, depth) == Parsed([v], next + 1))
  {
    hide ParseValue, Skip;
  }

  lemma ItemsFail(c: Bytes, off: nat, depth: nat)
    requires Terminated(c) && off <= |c| && ParseValue(c, Skip(c, off), depth) == Failed
    ensures ParseItems(c, off, depth) == Failed
  {
    hide ParseValue, Skip;
  }

  lemma ObjectStep(c: Bytes, off: nat, depth: nat)
    requires Terminated(c) && off < |c| && depth < NESTING_LIMIT
    ensures var first := Skip(c, off + 1);
            && (ByteAt(c, first, 125) ==> ParseObject(c, off, depth) == Parsed(Object([]), first + 1))
            && (first < |c| && c[first] != 125 && ParseMembers(c, first, depth + 1).Parsed? ==>
                  var r := ParseMembers(c, first, depth + 1);
                  ParseObject(c, off, depth) == Parsed(Object(r.value), r.offset))
            && (first < |c| && c[first] != 125 && ParseMembers(c, first, depth + 1).Failed? ==>
                  ParseObject(c, off, depth) == Failed)
  {
    hide ParseMembers, Skip;
  }

  lemma MembersStep(c: Bytes, off: nat, depth: nat, m: Member, o: nat)
    requires Terminated(c) && off < |c| && o <= |c| && ParseMember(c, off, depth) == Parsed(m, o)
    ensures var next := Skip(c, o);
            && (ByteAt(c, next, COMMA) && next + 1 < |c| && ParseMembers(c, next + 1, depth).Parsed? ==>
                  var r := ParseMembers(c, next + 1, depth);
                  ParseMembers(c, off, depth) == Parsed([m] + r.value, r.offset))
            && (ByteAt(c, next, COMMA) && next + 1 < |c| && ParseMembers(c, next + 1, depth).Failed? ==>
                  ParseMembers(c, off, depth) == Failed)
            && (ByteAt(c, next, 125) ==> ParseMembers(c, off, depth) == Parsed([m], next + 1))
  {
    hide ParseMember, Skip;
  }

  lemma MembersFail(c: Bytes, off: nat, depth: nat)
    requires Terminated(c) && off < |c| && ParseMember(c, off, depth) == Failed
    ensures ParseMembers(c, off, depth) == Failed
  {
    hide ParseMember, Skip;
  }

  lemma MemberStep(c: Bytes, off: nat, depth: nat, key: Bytes, o: nat, v: Value, o': nat)
    requires Terminated(c) && off < |c| && o <= |c| && ParseString(c, Skip(c, off)) == Parsed(key, o)
    requires ByteAt(c, Skip(c, o), COLON)
    ensures var r := ParseValue(c, Skip(c, Skip(c, o) + 1), depth);
            && (r == Parsed(v, o') ==> ParseMember(c, off, depth) == Parsed(Member(key, v), o'))
            && (r == Failed ==> ParseMember(c, off, depth) == Failed)
  {
    hide ParseString, ParseValue, Skip;
  }

  lemma SkipTwice(c: Bytes, off: nat)
    requires off < |c|
    ensures Skip(c, Skip(c, off)) == Skip(c, off)
  {
    var o := Skip(c, off);
    if SkipFrom(c, off) == |c| { assert SkipFrom(c, |c| - 1) == |c|; }
  }

  /** Parsing members from behind the whitespace comes to the same. */
  lemma MembersAfterSkip(c: Bytes, off: nat, depth: nat)
    requires Terminated(c) && off < |c|
    ensures ParseMembers(c, Skip(c, off), depth) == ParseMembers(c, off, depth)
  {
    hide ParseMember, Skip, Terminated, ByteAt;
    MemberAfterSkip(c, off, depth);
  }

  lemma MemberAfterSkip(c: Bytes, off: nat, depth: nat)
    requires Terminated(c) && off < |c|
    ensures ParseMember(c, Skip(c, off), depth) == ParseMember(c, off, depth)
  {
    hide Skip, ParseString, ParseValue, Terminated, ByteAt;
    SkipTwice(c, off);
  }

  lemma ItemsAfterSkip(c: Bytes, off: nat, depth: nat)
    requires Terminated(c) && off < |c|
    ensures ParseItems(c, Skip(c, off), depth) == ParseItems(c, off, depth)
  {
    hide Skip, ParseValue, Terminated, ByteAt;
    SkipTwice(c, off);
  }

  /** At the limit no array or object is taken, and none has room. */
  lemma AtLimit(c: Bytes, off: nat, v: Value)
    requires Terminated(c) && off < |c| && (v.Array? || v.Object?)
    ensures ParseArray(c, off, NESTING_LIMIT) == Failed && ParseObject(c, off, NESTING_LIMIT) == Failed
    ensures !Within(v, 0)
  {
  }

  // ---- arrays ----

  /** Where a blank ends with a comma or a bracket, a value before it ends. */
  lemma BlankEnds(c: Bytes, end: nat, blank: Bytes)
    requires Blank(blank) && WordAt(c, end, blank) && end + |blank| < |c| && c[end + |blank|] in {COMMA, 93, 125, COLON}
    ensures Ends(c, end) && Skip(c, end) == end + |blank|
  {
    if blank != [] {
      WordByte(c, end, blank, 0);
      assert blank[0] as char in {' ', '\t', '\n', '\r'};
    }
    SkipBlank(c, end, blank);
  }

  lemma {:induction false} AcceptsArray(c: Bytes, off: nat, f: Form, depth: nat)
    requires (f.Empty? || f.Elements?) && Terminated(c) && Fine(f) && depth <= NESTING_LIMIT
    requires off < |c| && WordAt(c, off, Spell(f))
    ensures ParseArray(c, off, depth) == Taken(f, depth, off + |Spell(f)|)
    decreases f, 0
  {
    hide ParseArray, ParseItems, WordAt, Skip, FineElements, SpellElements, ItemsOf, Blank;
    if depth == NESTING_LIMIT {
      AtLimit(c, off, Meaning(f));
    } else if f.Empty? {
      AcceptsEmptyArray(c, off, f.blank, depth);
    } else {
      WordSplit(c, off, [91], SpellElements(f.elements) + [93]);
      ArrayStep(c, off, depth);
      FirstElement(c, off + 1, f.elements);
      ItemsAfterSkip(c, off + 1, depth + 1);
      AcceptsElements(c, off + 1, f.elements, depth + 1);
      ArrayWithin(ItemsOf(f.elements), NESTING_LIMIT - depth);
    }
  }

  lemma AcceptsEmptyArray(c: Bytes, off: nat, blank: Bytes, depth: nat)
    requires Terminated(c) && Blank(blank) && depth < NESTING_LIMIT
    requires off < |c| && WordAt(c, off, [91] + (blank + [93]))
    ensures ParseArray(c, off, depth) == Parsed(Array([]), off + |blank| + 2)
  {
    hide WordAt, Skip, ParseArray, ParseItems, Blank;
    WordSplit(c, off, [91], blank + [93]);
    ArrayStep(c, off, depth);
    WordSplit(c, off + 1, blank, [93]);
    WordByte(c, off + 1 + |blank|, [93], 0);
    SkipBlank(c, off + 1, blank);
  }

  lemma ArrayWithin(vs: seq<Value>, n: nat)
    requires n > 0
    ensures Within(Array(vs), n) <==> AllWithin(vs, n - 1)
  {
  }

  lemma AllWithinFrom(v: Value, vs: seq<Value>, n: nat)
    ensures AllWithin([v] + vs, n) <==> Within(v, n) && AllWithin(vs, n)
  {
    if AllWithin([v] + vs, n) {
      forall i {:trigger vs[i]} | 0 <= i < |vs| ensures Within(vs[i], n) { assert vs[i] == ([v] + vs)[i + 1]; }
      assert ([v] + vs)[0] == v;
    }
  }

  /** Behind an element's blank. */
  function ElementEnd(es: ElementList): Bytes {
    if es.Element? then [COMMA] + (SpellElements(es.rest) + [93]) else [93]
  }

  lemma ElementParts(es: ElementList)
    ensures SpellElements(es) + [93] == es.before + (Spell(es.form) + (es.after + ElementEnd(es)))
  {
    hide Spell;
  }

  lemma FirstElement(c: Bytes, off: nat, es: ElementList)
    requires FineElements(es) && WordAt(c, off, SpellElements(es) + [93])
    ensures var at := off + |es.before|;
            && Skip(c, off) == at && at < |c| && c[at] != 93 && WordAt(c, at, Spell(es.form))
            && WordAt(c, at + |Spell(es.form)|, es.after + ElementEnd(es))
            && off + |SpellElements(es)| + 1 == at + |Spell(es.form)| + |es.after + ElementEnd(es)|
  {
    hide Spell, SpellElements, ElementEnd, WordAt, Skip, Blank;
    ElementParts(es);
    WordSplit(c, off, es.before, Spell(es.form) + (es.after + ElementEnd(es)));
    WordSplit(c, off + |es.before|, Spell(es.form), es.after + ElementEnd(es));
    SpellStarts(es.form);
    WordByte(c, off + |es.before|, Spell(es.form), 0);
    SkipBlank(c, off, es.before);
  }

  /** Behind an element's value. */
  lemma ElementTail(c: Bytes, end: nat, es: ElementList)
    requires FineElements(es) && WordAt(c, end, es.after + ElementEnd(es))
    ensures var next := end + |es.after|;
            && Ends(c, end) && Skip(c, end) == next && ByteAt(c, next, if es.Element? then COMMA else 93)
            && (es.Element? ==> WordAt(c, next + 1, SpellElements(es.rest) + [93]))
            && |ElementEnd(es)| == if es.Element? then |SpellElements(es.rest)| + 2 else 1
  {
    hide Spell, SpellElements, WordAt, Skip, Blank, NumberChar;
    WordSplit(c, end, es.after, ElementEnd(es));
    WordByte(c, end + |es.after|, ElementEnd(es), 0);
    BlankEnds(c, end, es.after);
    if es.Element? { WordSplit(c, end + |es.after|, [COMMA], SpellElements(es.rest) + [93]); }
  }

  lemma {:induction false} AcceptsElements(c: Bytes, off: nat, es: ElementList, depth: nat)
    requires Terminated(c) && FineElements(es) && 1 <= depth <= NESTING_LIMIT
    requires off < |c| && WordAt(c, off, SpellElements(es) + [93])
    ensures ParseItems(c, off, depth) == if AllWithin(ItemsOf(es), NESTING_LIMIT - depth)
                                         then Parsed(ItemsOf(es), off + |SpellElements(es)| + 1) else Failed
    decreases es, 0
  {
    hide Spell, SpellElements, ElementEnd, ParseItems, ParseValue, WordAt, Skip, Blank, AllWithin, Within, Terminated,
        NumberChar;
    var end := off + |es.before| + |Spell(es.form)|;
    FirstElement(c, off, es);
    ElementTail(c, end, es);
    AcceptsValue(c, off + |es.before|, es.form, depth);
    var v := Meaning(es.form);
    AllWithinFrom(v, if es.Element? then ItemsOf(es.rest) else [], NESTING_LIMIT - depth);
    if !Within(v, NESTING_LIMIT - depth) {
      ItemsFail(c, off, depth);
    } else {
      ItemsStep(c, off, depth, v, end);
      if es.Element? {
        WordByte(c, end + |es.after| + 1, SpellElements(es.rest) + [93], 0);
        AcceptsElements(c, end + |es.after| + 1, es.rest, depth);
      } else {
        NoneWithin(NESTING_LIMIT - depth);
        assert [v] + [] == [v];
      }
    }
  }

  lemma NoneWithin(n: nat)
    ensures AllWithin([], n) && MembersWithin([], n)
  {
  }

  // ---- objects ----

  lemma {:induction false} AcceptsObject(c: Bytes, off: nat, f: Form, depth: nat)
    requires (f.EmptyObject? || f.Fields?) && Terminated(c) && Fine(f) && depth <= NESTING_LIMIT
    requires off < |c| && WordAt(c, off, Spell(f))
    ensures ParseObject(c, off, depth) == Taken(f, depth, off + |Spell(f)|)
    decreases f, 0
  {
    hide ParseObject, ParseMembers, WordAt, Skip, FineFields, SpellFields, MembersOf, Blank;
    if depth == NESTING_LIMIT {
      AtLimit(c, off, Meaning(f));
    } else if f.EmptyObject? {
      AcceptsEmptyObject(c, off, f.blank, depth);
    } else {
      WordSplit(c, off, [123], SpellFields(f.fields) + [125]);
      ObjectStep(c, off, depth);
      FirstField(c, off + 1, f.fields);
      MembersAfterSkip(c, off + 1, depth + 1);
      AcceptsFields(c, off + 1, f.fields, depth + 1);
      ObjectWithin(MembersOf(f.fields), NESTING_LIMIT - depth);
    }
  }

  lemma AcceptsEmptyObject(c: Bytes, off: nat, blank: Bytes, depth: nat)
    requires Terminated(c) && Blank(blank) && depth < NESTING_LIMIT
    requires off < |c| && WordAt(c, off, [123] + (blank + [125]))
    ensures ParseObject(c, off, depth) == Parsed(Object([]), off + |blank| + 2)
  {
    hide WordAt, Skip, ParseObject, ParseMembers, Blank;
    WordSplit(c, off, [123], blank + [125]);
    ObjectStep(c, off, depth);
    WordSplit(c, off + 1, blank, [125]);
    WordByte(c, off + 1 + |blank|, [125], 0);
    SkipBlank(c, off + 1, blank);
  }

  lemma ObjectWithin(ms: seq<Member>, n: nat)
    requires n > 0
    ensures Within(Object(ms), n) <==> MembersWithin(ms, n - 1)
  {
  }

  lemma MembersWithinFrom(m: Member, ms: seq<Member>, n: nat)
    ensures MembersWithin([m] + ms, n) <==> Within(m.value, n) && MembersWithin(ms, n)
  {
    if MembersWithin([m] + ms, n) {
      forall i {:trigger ms[i]} | 0 <= i < |ms| ensures Within(ms[i].value, n) { assert ms[i] == ([m] + ms)[i + 1]; }
      assert ([m] + ms)[0] == m;
    }
  }

  /** A field from its value on, and what follows it. */
  function FieldEnd(fs: FieldList): Bytes {
    Spell(fs.form) + (fs.after + (if fs.Field? then [COMMA] + (SpellFields(fs.rest) + [125]) else [125]))
  }

  lemma FieldParts(fs: FieldList)
    ensures SpellFields(fs) + [125]
         == fs.before + (SpellString(fs.key) + (fs.mid + ([COLON] + (fs.gap + FieldEnd(fs)))))
  {
    hide Spell, SpellString;
  }

  lemma FirstField(c: Bytes, off: nat, fs: FieldList)
    requires FineFields(fs) && WordAt(c, off, SpellFields(fs) + [125])
    ensures var at := off + |fs.before|; var tail := fs.mid + ([COLON] + (fs.gap + FieldEnd(fs)));
            && Skip(c, off) == at && at < |c| && c[at] != 125 && WordAt(c, at, SpellString(fs.key))
            && WordAt(c, at + |SpellString(fs.key)|, tail)
            && off + |SpellFields(fs)| + 1 == at + |SpellString(fs.key)| + |tail|
  {
    hide SpellString, FieldEnd, SpellFields, WordAt, Skip, Blank;
    var tail := fs.mid + ([COLON] + (fs.gap + FieldEnd(fs)));
    FieldParts(fs);
    var at := off + |fs.before|;
    WordSplit(c, off, fs.before, SpellString(fs.key) + tail);
    WordSplit(c, at, SpellString(fs.key), tail);
    QuoteStarts(fs.key);
    WordByte(c, at, SpellString(fs.key), 0);
    SkipBlank(c, off, fs.before);
  }

  /** From behind a key up to the value. */
  lemma KeyTail(c: Bytes, end: nat, fs: FieldList)
    requires FineFields(fs) && WordAt(c, end, fs.mid + ([COLON] + (fs.gap + FieldEnd(fs))))
    ensures var colon := end + |fs.mid|; var at := colon + 1 + |fs.gap|;
            && Skip(c, end) == colon && ByteAt(c, colon, COLON) && Skip(c, colon + 1) == at
            && WordAt(c, at, FieldEnd(fs))
  {
    hide Spell, FieldEnd, WordAt, Skip, Blank;
    var colon := end + |fs.mid|;
    WordSplit(c, end, fs.mid, [COLON] + (fs.gap + FieldEnd(fs)));
    WordSplit(c, colon, [COLON], fs.gap + FieldEnd(fs));
    WordByte(c, colon, [COLON], 0);
    WordSplit(c, colon + 1, fs.gap, FieldEnd(fs));
    FieldEndStarts(fs);
    WordByte(c, colon + 1 + |fs.gap|, FieldEnd(fs), 0);
    SkipBlank(c, end, fs.mid);
    SkipBlank(c, colon + 1, fs.gap);
  }

  lemma FieldEndStarts(fs: FieldList)
    requires Fine(fs.form)
    ensures FieldEnd(fs) != [] && FieldEnd(fs)[0] > 32
  {
    hide Spell, SpellFields;
    SpellStarts(fs.form);
  }

  /** Behind a field's value. */
  lemma FieldTail(c: Bytes, at: nat, fs: FieldList)
    requires FineFields(fs) && WordAt(c, at, FieldEnd(fs))
    ensures var end := at + |Spell(fs.form)|; var next := end + |fs.after|;
            && WordAt(c, at, Spell(fs.form))
            && Ends(c, end) && Skip(c, end) == next && ByteAt(c, next, if fs.Field? then COMMA else 125)
            && (fs.Field? ==> WordAt(c, next + 1, SpellFields(fs.rest) + [125]))
            && at + |FieldEnd(fs)| == next + 1 + if fs.Field? then |SpellFields(fs.rest)| + 1 else 0
  {
    hide Spell, SpellFields, WordAt, Skip, Blank, NumberChar;
    var more := if fs.Field? then [COMMA] + (SpellFields(fs.rest) + [125]) else [125];
    var end := at + |Spell(fs.form)|;
    WordSplit(c, at, Spell(fs.form), fs.after + more);
    WordSplit(c, end, fs.after, more);
    WordByte(c, end + |fs.after|, more, 0);
    BlankEnds(c, end, fs.after);
    if fs.Field? { WordSplit(c, end + |fs.after|, [COMMA], SpellFields(fs.rest) + [125]); }
  }

  lemma {:induction false} AcceptsFields(c: Bytes, off: nat, fs: FieldList, depth: nat)
    requires Terminated(c) && FineFields(fs) && 1 <= depth <= NESTING_LIMIT
    requires off < |c| && WordAt(c, off, SpellFields(fs) + [125])
    ensures ParseMembers(c, off, depth) == if MembersWithin(MembersOf(fs), NESTING_LIMIT - depth)
                                           then Parsed(MembersOf(fs), off + |SpellFields(fs)| + 1) else Failed
    decreases fs, 0
  {
    hide Spell, SpellString, SpellFields, FieldEnd, ParseMembers, ParseMember, ParseValue, ParseString, WordAt, Skip,
        Blank, MembersWithin, Within, Terminated, StringOf, FinePieces, NumberChar;
    FirstField(c, off, fs);
    var key := off + |fs.before|;
    var colon := key + |SpellString(fs.key)| + |fs.mid|;
    var at := colon + 1 + |fs.gap|;
    KeyTail(c, key + |SpellString(fs.key)|, fs);
    FieldTail(c, at, fs);
    AcceptsString(c, key, fs.key);
    AcceptsValue(c, at, fs.form, depth);
    var m, end := Member(StringOf(fs.key), Meaning(fs.form)), at + |Spell(fs.form)|;
    MemberStep(c, off, depth, m.key, key + |SpellString(fs.key)|, m.value, end);
    MembersWithinFrom(m, if fs.Field? then MembersOf(fs.rest) else [], NESTING_LIMIT - depth);
    if !Within(m.value, NESTING_LIMIT - depth) {
      MembersFail(c, off, depth);
    } else {
      MembersStep(c, off, depth, m, end);
      if fs.Field? {
        RestInside(c, end + |fs.after| + 1, fs.rest);
        AcceptsFields(c, end + |fs.after| + 1, fs.rest, depth);
      } else {
        NoneWithin(NESTING_LIMIT - depth);
        assert [m] + [] == [m];
      }
    }
  }

  lemma RestInside(c: Bytes, off: nat, fs: FieldList)
    requires WordAt(c, off, SpellFields(fs) + [125])
    ensures off < |c|
  {
    hide SpellFields;
  }

  // ---- whole texts ----

  /** Behind a blank, any text of the grammar, followed by the end or by what no number goes on with, parses to its
      meaning exactly if that is nested at most 1000 deep. */
  lemma AcceptsText(blank: Bytes, f: Form, behind: Bytes)
    requires Blank(blank) && Fine(f) && (behind != [] ==> !NumberChar(behind[0]))
    ensures ParseText(blank + Spell(f) + behind) == Taken(f, 0, |blank| + |Spell(f)|)
  {
    hide *;
    var s := Spell(f);
    var c := blank + s + behind + [0];
    SpellStarts(f);
    TextParts(blank, s, behind);
    SkipBlank(c, 0, blank);
    NoMark(c, blank);
    Unmarked(blank + s + behind);
    AcceptsValue(c, |blank|, f, 0);
  }

  lemma TextParts(blank: Bytes, s: Bytes, behind: Bytes)
    requires s != []
    ensures var c := blank + s + behind + [0];
            && Terminated(c) && WordAt(c, 0, blank) && WordAt(c, |blank|, s) && c[|blank|] == s[0]
            && c[..|blank|] == blank && |blank| + |s| < |c|
            && (behind == [] || !NumberChar(behind[0]) ==> Ends(c, |blank| + |s|))
  {
    var c := blank + s + behind + [0];
    assert c == blank + (s + (behind + [0]));
    assert c[0..|c|] == c;
    WordSplit(c, 0, blank, s + (behind + [0]));
    WordSplit(c, |blank|, s, behind + [0]);
    WordByte(c, |blank|, s, 0);
    assert c[|blank| + |s|] == (behind + [0])[0];
  }

  lemma Unmarked(text: Bytes)
    requires var c := text + [0]; |c| > 4 ==> c[..3] != [0xEF, 0xBB, 0xBF]
    ensures ParseText(text) == ParseValue(text + [0], Skip(text + [0], 0), 0)
  {
    hide ParseValue, Skip;
  }

  /** Such a text has no byte order mark. */
  lemma NoMark(c: Bytes, blank: Bytes)
    requires Blank(blank) && |blank| < |c| && c[..|blank|] == blank && c[|blank|] < 128
    ensures |c| > 4 ==> c[..3] != [0xEF, 0xBB, 0xBF]
  {
    if |c| > 4 {
      assert c[..3][0] == c[0];
      if blank != [] { assert c[0] == blank[0] && blank[0] as char in {' ', '\t', '\n', '\r'}; }
    }
  }
}
