/** The printed text, character by character: section 7 of RFC 8259 for strings, and where commas, tabs and
    newlines go. */
module JsonText {
  import opened Coding
  import opened Utf
  import opened Json

  function Chars(s: Bytes): (t: string)
    ensures |t| == |s|
  {
    seq(|s|, i requires 0 <= i < |s| => s[i] as char)
  }

  lemma CharsOver(s: Bytes, t: Bytes)
    ensures Chars(s + t) == Chars(s) + Chars(t)
  {
  }

  // ---- strings ----

  /** A printed byte is itself, or one of the two-character escapes, or \u and its four digits. */
  lemma EscapeText(b: byte)
    ensures var t := Chars(EscapeByte(b));
            if b == 34 then t == "\\\""
            else if b == 92 then t == "\\\\"
            else if b == 8 then t == "\\b"
            else if b == 12 then t == "\\f"
            else if b == 10 then t == "\\n"
            else if b == 13 then t == "\\r"
            else if b == 9 then t == "\\t"
            else if b < 32 then t == "\\u00" + [DIGITS[b / 16], DIGITS[b % 16]]
            else t == [b as char]
  {
    if b < 32 {
      assert HexChar(b / 16) as char == DIGITS[b / 16] && HexChar(b % 16) as char == DIGITS[b % 16];
    }
  }

  /** One text after the other, with `comma` between. */
  function Joined(texts: seq<string>, comma: string): string {
    if texts == [] then "" else if |texts| == 1 then texts[0] else texts[0] + comma + Joined(texts[1..], comma)
  }

  /** A printed string: its bytes' escapes between quotes. */
  lemma QuotedText(s: Bytes)
    ensures Chars(Quoted(s)) == "\"" + Joined(seq(|s|, i requires 0 <= i < |s| => Chars(EscapeByte(s[i]))), "") + "\""
  {
    EscapedText(s, 0);
    var texts := seq(|s|, i requires 0 <= i < |s| => Chars(EscapeByte(s[i])));
    assert texts[0..] == texts;
    CharsOver([QUOTE] + Escaped(s, 0), [QUOTE]);
    CharsOver([QUOTE], Escaped(s, 0));
  }

  lemma {:induction false} EscapedText(s: Bytes, k: nat)
    requires k <= |s|
    ensures Chars(Escaped(s, k))
         == Joined(seq(|s|, i requires 0 <= i < |s| => Chars(EscapeByte(s[i])))[k..], "")
    decreases |s| - k
  {
    hide EscapeByte;
    var texts := seq(|s|, i requires 0 <= i < |s| => Chars(EscapeByte(s[i])));
    if k < |s| {
      EscapedText(s, k + 1);
      CharsOver(EscapeByte(s[k]), Escaped(s, k + 1));
      assert texts[k..][0] == texts[k] && texts[k..][1..] == texts[k + 1..];
      if k + 1 == |s| { assert texts[k + 1..] == []; }
    }
  }

  // ---- values ----

  function TabChars(n: nat): string { seq(n, _ => '\t') }

  lemma WordTexts(d: nat, fmt: bool)
    ensures Chars(Print(Null, d, fmt)) == "null" && Chars(Print(True, d, fmt)) == "true"
    ensures Chars(Print(False, d, fmt)) == "false"
  {
  }

  function ItemTexts(v: Value, d: nat, fmt: bool): (texts: seq<string>)
    requires v.Array?
    ensures |texts| == |v.items|
  {
    seq(|v.items|, i requires 0 <= i < |v.items| => Chars(Print(v.items[i], d, fmt)))
  }

  /** An array: its elements on one line. */
  lemma ArrayText(v: Value, d: nat, fmt: bool)
    requires v.Array?
    ensures Chars(Print(v, d, fmt)) == "[" + Joined(ItemTexts(v, d + 1, fmt), if fmt then ", " else ",") + "]"
  {
    hide ItemsFrom, ItemTexts;
    ItemsText(v, 0, d + 1, fmt);
    var texts := ItemTexts(v, d + 1, fmt);
    assert texts[0..] == texts;
    CharsOver([91] + ItemsFrom(v, 0, d + 1, fmt), [93]);
    CharsOver([91], ItemsFrom(v, 0, d + 1, fmt));
  }

  lemma {:induction false} ItemsText(v: Value, k: nat, d: nat, fmt: bool)
    requires v.Array? && k <= |v.items|
    ensures Chars(ItemsFrom(v, k, d, fmt)) == Joined(ItemTexts(v, d, fmt)[k..], if fmt then ", " else ",")
    decreases |v.items| - k
  {
    hide Print;
    var texts := ItemTexts(v, d, fmt);
    if k < |v.items| {
      ItemsText(v, k + 1, d, fmt);
      var p := Print(v.items[k], d, fmt);
      var comma := if k + 1 < |v.items| then [COMMA] + Gap(SPACE, fmt) else [];
      CharsOver(p + comma, ItemsFrom(v, k + 1, d, fmt));
      CharsOver(p, comma);
      assert texts[k..][0] == Chars(p) && texts[k..][1..] == texts[k + 1..];
      if k + 1 == |v.items| {
        assert ItemsFrom(v, k + 1, d, fmt) == [] && Chars([]) == [];
      } else {
        assert Chars(comma) == if fmt then ", " else ",";
      }
    }
  }

  function MemberTexts(v: Value, d: nat, fmt: bool): (texts: seq<string>)
    requires v.Object?
    ensures |texts| == |v.members|
  {
    seq(|v.members|, i requires 0 <= i < |v.members| =>
      (if fmt then TabChars(d) else "") + Chars(Quoted(v.members[i].key)) + (if fmt then ":\t" else ":")
      + Chars(Print(v.members[i].value, d, fmt)))
  }

  /** An object: its members each on a line of their own, indented by the depth. */
  lemma ObjectText(v: Value, d: nat, fmt: bool)
    requires v.Object?
    ensures Chars(Print(v, d, fmt)) ==
            if !fmt then "{" + Joined(MemberTexts(v, d + 1, fmt), ",") + "}"
            else if v.members == [] then "{\n" + TabChars(d) + "}"
            else "{\n" + Joined(MemberTexts(v, d + 1, fmt), ",\n") + "\n" + TabChars(d) + "}"
  {
    hide MembersFrom, MemberTexts;
    MembersText(v, 0, d + 1, fmt);
    var texts := MemberTexts(v, d + 1, fmt);
    assert texts[0..] == texts;
    var open, body, close := [123] + Break(fmt), MembersFrom(v, 0, d + 1, fmt), Indent(d, fmt) + [125];
    assert Print(v, d, fmt) == open + body + close;
    CharsOver(open + body, close);
    CharsOver(open, body);
    CharsOver(Indent(d, fmt), [125]);
    assert fmt ==> Chars(Indent(d, fmt)) == TabChars(d);
  }

  lemma {:induction false} MembersText(v: Value, k: nat, d: nat, fmt: bool)
    requires v.Object? && k <= |v.members|
    ensures var comma := if fmt then ",\n" else ",";
            Chars(MembersFrom(v, k, d, fmt)) == Joined(MemberTexts(v, d, fmt)[k..], comma)
                + if fmt && k < |v.members| then "\n" else ""
    decreases |v.members| - k
  {
    hide MemberText, MemberTexts, Print;
    if k < |v.members| {
      MembersText(v, k + 1, d, fmt);
      MemberAsText(v, k, d, fmt);
      CharsOver(MemberText(v, k, d, fmt), MembersFrom(v, k + 1, d, fmt));
      var texts := MemberTexts(v, d, fmt);
      assert texts[k..][0] == texts[k] && texts[k..][1..] == texts[k + 1..];
      if k + 1 == |v.members| { assert MembersFrom(v, k + 1, d, fmt) == [] && Chars([]) == []; }
    }
  }

  lemma MemberAsText(v: Value, k: nat, d: nat, fmt: bool)
    requires v.Object? && k < |v.members|
    ensures Chars(MemberText(v, k, d, fmt)) == MemberTexts(v, d, fmt)[k]
              + (if k + 1 < |v.members| then "," else "") + (if fmt then "\n" else "")
  {
    hide Print, Quoted;
    var a, q, g := Indent(d, fmt), Quoted(v.members[k].key), [COLON] + Gap(TAB, fmt);
    var p := Print(v.members[k].value, d, fmt);
    var e := (if k + 1 < |v.members| then [COMMA] else []) + Break(fmt);
    assert MemberText(v, k, d, fmt) == a + q + g + p + e;
    CharsOver(a + q + g + p, e);
    CharsOver(a + q + g, p);
    CharsOver(a + q, g);
    CharsOver(a, q);
    assert Chars(g) == if fmt then ":\t" else ":";
    assert Chars(a) == if fmt then TabChars(d) else "";
    assert Chars(e) == (if k + 1 < |v.members| then "," else "") + (if fmt then "\n" else "");
  }
}
