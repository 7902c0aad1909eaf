/** The JSON grammar of RFC 8259, numbers being integers, as forms that say how a value is written: which bytes are
    escaped and how, and what blanks stand where. The parser takes every such text for the value it means. */
module JsonGrammar {
  import opened Coding
  import opened Utf
  import opened Json
  import opened JsonParse

  // ---- forms ----

  /** A character of a string: as it is, escaped with a letter, or escaped by its code point. */
  datatype Piece = Plain(b: byte) | Letter(letter: byte) | Code(text: Bytes, codepoint: nat)

  datatype Form =
    | NullForm
    | FalseForm
    | TrueForm
    | Digits(text: Bytes)
    | Text(pieces: seq<Piece>)
    | Empty(blank: Bytes)
    | Elements(elements: ElementList)
    | EmptyObject(blank: Bytes)
    | Fields(fields: FieldList)

  datatype ElementList =
    | LastElement(before: Bytes, form: Form, after: Bytes)
    | Element(before: Bytes, form: Form, after: Bytes, rest: ElementList)

  datatype FieldList =
    | LastField(before: Bytes, key: seq<Piece>, mid: Bytes, gap: Bytes, form: Form, after: Bytes)
    | Field(before: Bytes, key: seq<Piece>, mid: Bytes, gap: Bytes, form: Form, after: Bytes, rest: FieldList)

  /** Section 2: spaces, tabs, line feeds and carriage returns. */
  predicate Blank(s: Bytes) { forall i :: 0 <= i < |s| ==> s[i] as char in {' ', '\t', '\n', '\r'} }

  /** Section 7: the letters that may follow a backslash, and what they mean. */
  const LETTERS: map<char, byte> :=
    map['"' := 34, '\\' := 92, '/' := 47, 'b' := 8, 'f' := 12, 'n' := 10, 'r' := 13, 't' := 9]

  predicate FinePiece(p: Piece) {
    match p
    case Plain(b) => b >= 32 && b as char != '"' && b as char != '\\'
    case Letter(letter) => letter as char in LETTERS
    case Code(text, cp) => Spelled(text, 0, cp) && |text| == if cp < 0x10000 then 6 else 12
  }

  predicate FinePieces(ps: seq<Piece>) { forall i {:trigger ps[i]} :: 0 <= i < |ps| ==> FinePiece(ps[i]) }

  predicate FineDigits(text: Bytes) {
    PlainInteger(text) && |text| <= 63 && INT_MIN <= IntegerOf(text) <= INT_MAX
  }

  predicate Fine(f: Form) {
    match f
    case NullForm => true
    case FalseForm => true
    case TrueForm => true
    case Digits(text) => FineDigits(text)
    case Text(pieces) => FinePieces(pieces)
    case Empty(blank) => Blank(blank)
    case Elements(es) => FineElements(es)
    case EmptyObject(blank) => Blank(blank)
    case Fields(fs) => FineFields(fs)
  }

  predicate FineElements(es: ElementList) {
    Blank(es.before) && Fine(es.form) && Blank(es.after) && (es.Element? ==> FineElements(es.rest))
  }

  predicate FineFields(fs: FieldList) {
    && Blank(fs.before) && FinePieces(fs.key) && Blank(fs.mid) && Blank(fs.gap) && Fine(fs.form) && Blank(fs.after)
    && (fs.Field? ==> FineFields(fs.rest))
  }

  // ---- the text ----

  function SpellPiece(p: Piece): Bytes {
    match p
    case Plain(b) => [b]
    case Letter(letter) => [BACKSLASH, letter]
    case Code(text, _) => text
  }

  function SpellPieces(ps: seq<Piece>): Bytes { if ps == [] then [] else SpellPiece(ps[0]) + SpellPieces(ps[1..]) }

  function SpellString(ps: seq<Piece>): Bytes { [QUOTE] + (SpellPieces(ps) + [QUOTE]) }

  function Spell(f: Form): Bytes {
    match f
    case NullForm => [110, 117, 108, 108]
    case FalseForm => [102, 97, 108, 115, 101]
    case TrueForm => [116, 114, 117, 101]
    case Digits(text) => text
    case Text(pieces) => SpellString(pieces)
    case Empty(blank) => [91] + (blank + [93])
    case Elements(es) => [91] + (SpellElements(es) + [93])
    case EmptyObject(blank) => [123] + (blank + [125])
    case Fields(fs) => [123] + (SpellFields(fs) + [125])
  }

  function SpellElements(es: ElementList): Bytes {
    es.before + (Spell(es.form) + (es.after + if es.Element? then [COMMA] + SpellElements(es.rest) else []))
  }

  function SpellFields(fs: FieldList): Bytes {
    fs.before + (SpellString(fs.key) + (fs.mid + ([COLON] + (fs.gap + (Spell(fs.form) + (fs.after +
      if fs.Field? then [COMMA] + SpellFields(fs.rest) else []))))))
  }

  // ---- the meaning ----

  function PieceBytes(p: Piece): Bytes
    requires FinePiece(p)
  {
    match p
    case Plain(b) => [b]
    case Letter(letter) => [LETTERS[letter as char]]
    case Code(_, cp) => Utf8(cp)
  }

  function PiecesBytes(ps: seq<Piece>): Bytes
    requires FinePieces(ps)
  {
    if ps == [] then [] else PieceBytes(ps[0]) + PiecesBytes(ps[1..])
  }

  /** What a string means: its bytes, up to a NUL. */
  function StringOf(ps: seq<Piece>): Bytes
    requires FinePieces(ps)
  {
    CString(PiecesBytes(ps))
  }

  function Meaning(f: Form): Value
    requires Fine(f)
  {
    match f
    case NullForm => Null
    case FalseForm => False
    case TrueForm => True
    case Digits(text) => Number(IntegerOf(text))
    case Text(pieces) => String(StringOf(pieces))
    case Empty(_) => Array([])
    case Elements(es) => Array(ItemsOf(es))
    case EmptyObject(_) => Object([])
    case Fields(fs) => Object(MembersOf(fs))
  }

  function ItemsOf(es: ElementList): seq<Value>
    requires FineElements(es)
  {
    [Meaning(es.form)] + if es.Element? then ItemsOf(es.rest) else []
  }

  function MembersOf(fs: FieldList): seq<Member>
    requires FineFields(fs)
  {
    [Member(StringOf(fs.key), Meaning(fs.form))] + if fs.Field? then MembersOf(fs.rest) else []
  }
}
