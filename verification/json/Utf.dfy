/** Unicode escapes: four hex digits, UTF-16 surrogates, UTF-8 bytes. Masks,
    shifts and disjoint ors are written as remainders, quotients and sums. */
module Utf {
  import opened Coding

  // ---- hex ----

  function HexDigit(c: byte): (h: int)
    ensures -1 <= h < 16
  {
    if 48 <= c <= 57 then c - 48
    else if 65 <= c <= 70 then 10 + c - 65
    else if 97 <= c <= 102 then 10 + c - 97
    else -1
  }

  const DIGITS: string := "0123456789abcdef"
  const CAPITALS: string := "0123456789ABCDEF"

  predicate Stands(c: byte, d: nat) { d < 16 && (c as char == DIGITS[d] || c as char == CAPITALS[d]) }

  /** A hex digit stands for its place among the digits, in either case. */
  lemma HexDigitStands(c: byte, d: nat)
    ensures HexDigit(c) == d <==> Stands(c, d)
  {
    if d < 10 {
      assert DIGITS[d] == (48 + d) as char == CAPITALS[d];
    } else if d < 16 {
      assert DIGITS[d] == (87 + d) as char && CAPITALS[d] == (55 + d) as char;
    }
  }

  predicate AllHex(s: Bytes, at: nat)
    requires at + 4 <= |s|
  {
    forall i {:trigger s[i]} :: at <= i < at + 4 ==> HexDigit(s[i]) >= 0
  }

  /** Four hex digits, the first the most significant; 0 if one of them is none. */
  function Hex4(s: Bytes, at: nat): (h: nat)
    requires at + 4 <= |s|
    ensures h < 0x10000
  {
    if !AllHex(s, at) then 0
    else
      assert HexDigit(s[at]) >= 0 && HexDigit(s[at + 1]) >= 0 && HexDigit(s[at + 2]) >= 0 && HexDigit(s[at + 3]) >= 0;
      HexDigit(s[at]) * 0x1000 + HexDigit(s[at + 1]) * 0x100 + HexDigit(s[at + 2]) * 0x10 + HexDigit(s[at + 3])
  }

  /** parse_hex4. */
  method ParseHex4(input: Bytes, at: nat) returns (h: nat)
    requires at + 4 <= |input|
    ensures h == Hex4(input, at)
  {
    h := 0;
    var i := 0;
    while i < 4
      invariant 0 <= i <= 4 && forall j {:trigger input[j]} :: at <= j < at + i ==> HexDigit(input[j]) >= 0
      invariant i == 0 ==> h == 0
      invariant i == 1 ==> h == HexDigit(input[at]) * 16
      invariant i == 2 ==> h == (HexDigit(input[at]) * 16 + HexDigit(input[at + 1])) * 16
      invariant i == 3 ==>
                h == ((HexDigit(input[at]) * 16 + HexDigit(input[at + 1])) * 16 + HexDigit(input[at + 2])) * 16
      invariant i == 4 ==>
                h == ((HexDigit(input[at]) * 16 + HexDigit(input[at + 1])) * 16 + HexDigit(input[at + 2])) * 16
                + HexDigit(input[at + 3])
    {
      if HexDigit(input[at + i]) < 0 {
        return 0;
      }
      h := h + HexDigit(input[at + i]);
      if i < 3 {
        h := h * 16;
      }
      i := i + 1;
    }
  }

  /** sprintf "%04x". */
  function HexChar(d: nat): (c: byte)
    requires d < 16
    ensures HexDigit(c) == d && c as char == DIGITS[d]
  {
    if d < 10 then 48 + d else 87 + d
  }

  // ---- UTF-16 ----

  predicate High(c: nat) { 0xD800 <= c <= 0xDBFF }

  predicate Low(c: nat) { 0xDC00 <= c <= 0xDFFF }

  /** Section 2.2 of RFC 2781: ten bits from each half, above 0x10000. */
  function PairOf(high: nat, low: nat): nat { 0x10000 + (high % 0x400) * 0x400 + low % 0x400 }

  /** Section 2.1 of RFC 2781: the surrogate pair of a code point above 0xFFFF. */
  function SurrogatesOf(cp: nat): (nat, nat)
    requires 0x10000 <= cp <= 0x10FFFF
  {
    (0xD800 + (cp - 0x10000) / 0x400, 0xDC00 + (cp - 0x10000) % 0x400)
  }

  lemma PairRoundTrip(cp: nat)
    requires 0x10000 <= cp <= 0x10FFFF
    ensures High(SurrogatesOf(cp).0) && Low(SurrogatesOf(cp).1) && PairOf(SurrogatesOf(cp).0, SurrogatesOf(cp).1) == cp
  {
  }

  lemma PairInRange(high: nat, low: nat)
    requires High(high) && Low(low)
    ensures 0x10000 <= PairOf(high, low) <= 0x10FFFF && SurrogatesOf(PairOf(high, low)) == (high, low)
  {
    TwoHalves(high % 0x400, low % 0x400);
    assert high == 0xD800 + high % 0x400 && low == 0xDC00 + low % 0x400;
  }

  lemma TwoHalves(a: nat, b: nat)
    requires a < 0x400 && b < 0x400
    ensures (a * 0x400 + b) / 0x400 == a && (a * 0x400 + b) % 0x400 == b
  {
  }

  // ---- UTF-8 ----

  /** Section 3 of RFC 3629. */
  function Utf8(cp: nat): (s: Bytes)
    requires cp <= 0x10FFFF
    ensures 1 <= |s| <= 4
  {
    if cp < 0x80 then [cp]
    else if cp < 0x800 then [0xC0 + cp / 0x40, 0x80 + cp % 0x40]
    else if cp < 0x10000 then [0xE0 + cp / 0x1000, 0x80 + cp / 0x40 % 0x40, 0x80 + cp % 0x40]
    else [0xF0 + cp / 0x40000, 0x80 + cp / 0x1000 % 0x40, 0x80 + cp / 0x40 % 0x40, 0x80 + cp % 0x40]
  }

  predicate Tail(c: byte) { 0x80 <= c < 0xC0 }

  /** The code point a byte sequence spells, overlong or not, or -1. */
  function DecodeUtf8(s: Bytes): int {
    if |s| == 1 && s[0] < 0x80 then s[0]
    else if |s| == 2 && 0xC0 <= s[0] < 0xE0 && Tail(s[1]) then (s[0] - 0xC0) as int * 0x40 + (s[1] as int - 0x80)
    else if |s| == 3 && 0xE0 <= s[0] < 0xF0 && Tail(s[1]) && Tail(s[2]) then
      (s[0] as int - 0xE0) * 0x1000 + (s[1] as int - 0x80) * 0x40 + (s[2] as int - 0x80)
    else if |s| == 4 && 0xF0 <= s[0] < 0xF8 && Tail(s[1]) && Tail(s[2]) && Tail(s[3]) then
      (s[0] as int - 0xF0) * 0x40000 + (s[1] as int - 0x80) * 0x1000 + (s[2] as int - 0x80) * 0x40
          + (s[3] as int - 0x80)
    else -1
  }

  lemma Quotients(cp: nat)
    ensures cp / 0x40 / 0x40 == cp / 0x1000 && cp / 0x40 / 0x40 / 0x40 == cp / 0x40000
  {
  }

  /** Six bits at a time. */
  lemma SixBits(cp: nat)
    ensures cp == cp / 0x40 * 0x40 + cp % 0x40
    ensures cp == cp / 0x1000 * 0x1000 + cp / 0x40 % 0x40 * 0x40 + cp % 0x40
    ensures cp == cp / 0x40000 * 0x40000 + cp / 0x1000 % 0x40 * 0x1000 + cp / 0x40 % 0x40 * 0x40 + cp % 0x40
  {
    Quotients(cp);
    assert cp / 0x40 == cp / 0x1000 * 0x40 + cp / 0x40 % 0x40;
    assert cp / 0x1000 == cp / 0x40000 * 0x40 + cp / 0x1000 % 0x40;
  }

  lemma Utf8RoundTrip(cp: nat)
    requires cp <= 0x10FFFF
    ensures DecodeUtf8(Utf8(cp)) == cp
  {
    SixBits(cp);
  }

  lemma DecodeBound(s: Bytes)
    ensures |s| == 1 ==> DecodeUtf8(s) < 0x80
    ensures |s| == 2 ==> DecodeUtf8(s) < 0x800
    ensures |s| == 3 ==> DecodeUtf8(s) < 0x10000
    ensures |s| == 0 ==> DecodeUtf8(s) == -1
  {
  }

  /** No shorter sequence spells the same code point. */
  lemma Utf8Shortest(cp: nat, s: Bytes)
    requires cp <= 0x10FFFF && DecodeUtf8(s) == cp
    ensures |s| >= |Utf8(cp)|
  {
    hide DecodeUtf8;
    DecodeBound(s);
  }

  // ---- the escape ----

  /** What an escape at `at` stands for, and how long it is; None if it cannot be decoded before `end`. */
  datatype Literal = NoLiteral | Literal(length: nat, codepoint: nat)

  function LiteralAt(s: Bytes, at: nat, end: nat): (l: Literal)
    requires at <= end <= |s|
    ensures l.Literal? ==> l.codepoint <= 0x10FFFF && l.length in {6, 12} && at + l.length <= end
    ensures l.Literal? ==> |Utf8(l.codepoint)| <= (if l.length == 6 then 3 else 4)
  {
    if end - at < 6 then NoLiteral
    else
      var first := Hex4(s, at + 2);
      if Low(first) then NoLiteral
      else if !High(first) then Literal(6, first)
      else if end - at < 12 || s[at + 6] != 92 || s[at + 7] != 117 then NoLiteral
      else
        var second := Hex4(s, at + 8);
        if !Low(second) then NoLiteral
        else
          PairInRange(first, second);
          Literal(12, PairOf(first, second))
  }

  /** utf16_literal_to_utf8: bytes from the last one back, then the first, six bits at a time. */
  method Utf16LiteralToUtf8(s: Bytes, at: nat, end: nat, output: array<byte>, pos: nat) returns (length: nat, pos': nat)
    requires at <= end <= |s| && pos <= output.Length
    requires var l := LiteralAt(s, at, end); l.Literal? ==> pos + |Utf8(l.codepoint)| <= output.Length
    modifies output
    ensures var l := LiteralAt(s, at, end);
            if l.NoLiteral? then length == 0 && pos' == pos && output[..] == old(output[..])
            else length == l.length && pos' == pos + |Utf8(l.codepoint)| && output[pos..pos'] == Utf8(l.codepoint)
    ensures output[..pos] == old(output[..pos])
  {
    ghost var l := LiteralAt(s, at, end);
    if end - at < 6 {
      return 0, pos;
    }
    var first := ParseHex4(s, at + 2);
    if 0xDC00 <= first <= 0xDFFF {
      return 0, pos;
    }
    var codepoint;
    if 0xD800 <= first <= 0xDBFF {
      length := 12;
      if end - (at + 6) < 6 {
        return 0, pos;
      }
      if s[at + 6] != 92 || s[at + 7] != 117 {
        return 0, pos;
      }
      var second := ParseHex4(s, at + 8);
      if second < 0xDC00 || second > 0xDFFF {
        return 0, pos;
      }
      codepoint := 0x10000 + (first % 0x400) * 0x400 + second % 0x400;
    } else {
      length := 6;
      codepoint := first;
    }
    assert l == Literal(length, codepoint);
    var n := EmitUtf8(codepoint, output, pos);
    pos' := pos + n;
  }

  /** The length by range, then continuation bytes from the last back, then the first. */
  method EmitUtf8(codepoint: nat, output: array<byte>, pos: nat) returns (n: nat)
    requires codepoint <= 0x10FFFF && pos + |Utf8(codepoint)| <= output.Length
    modifies output
    ensures n == |Utf8(codepoint)| && output[pos..pos + n] == Utf8(codepoint)
    ensures output[..pos] == old(output[..pos])
  {
    var mark: int;
    if codepoint < 0x80 {
      n, mark := 1, 0;
    } else if codepoint < 0x800 {
      n, mark := 2, 0xC0;
    } else if codepoint < 0x10000 {
      n, mark := 3, 0xE0;
    } else {
      n, mark := 4, 0xF0;
    }
    var cp, i := codepoint, n - 1;
    while i > 0
      invariant 0 <= i < n == |Utf8(codepoint)| && output[..pos] == old(output[..pos])
      invariant cp == if i == n - 1 then codepoint else if i == n - 2 then codepoint / 0x40
                      else if i == n - 3 then codepoint / 0x40 / 0x40 else codepoint / 0x40 / 0x40 / 0x40
      invariant i < n - 1 ==> output[pos + n - 1] == 0x80 + codepoint % 0x40
      invariant i < n - 2 ==> output[pos + n - 2] == 0x80 + codepoint / 0x40 % 0x40
      invariant i < n - 3 ==> output[pos + n - 3] == 0x80 + codepoint / 0x40 / 0x40 % 0x40
    {
      output[pos + i] := 0x80 + cp % 0x40;
      cp := cp / 0x40;
      i := i - 1;
    }
    Quotients(codepoint);
    output[pos] := mark + cp;
    assert output[pos..pos + n] == Utf8(codepoint);
  }

  /** `s` has the escape of code unit `u` at `at`, in hex digits of either case. */
  predicate Escapes(s: Bytes, at: nat, u: nat) {
    && u < 0x10000 && at + 6 <= |s| && s[at] as char == '\\' && s[at + 1] as char == 'u'
    && Stands(s[at + 2], u / 0x1000) && Stands(s[at + 3], u / 0x100 % 16)
    && Stands(s[at + 4], u / 0x10 % 16) && Stands(s[at + 5], u % 16)
  }

  lemma EscapeDigits(s: Bytes, at: nat, u: nat)
    requires Escapes(s, at, u)
    ensures AllHex(s, at + 2) && Hex4(s, at + 2) == u
  {
    hide Stands, HexDigit;
    HexDigitStands(s[at + 2], u / 0x1000);
    HexDigitStands(s[at + 3], u / 0x100 % 16);
    HexDigitStands(s[at + 4], u / 0x10 % 16);
    HexDigitStands(s[at + 5], u % 16);
    forall i {:trigger s[i]} | at + 2 <= i < at + 6 ensures HexDigit(s[i]) >= 0 {
      assert i in {at + 2, at + 3, at + 4, at + 5};
    }
    Nibbles(u);
  }

  lemma Nibbles(u: nat)
    requires u < 0x10000
    ensures u / 0x1000 * 0x1000 + u / 0x100 % 16 * 0x100 + u / 0x10 % 16 * 0x10 + u % 16 == u
  {
    assert u / 0x10 / 16 == u / 0x100 && u / 0x100 / 16 == u / 0x1000;
    assert u == u / 0x10 * 0x10 + u % 16 && u / 0x10 == u / 0x100 * 16 + u / 0x10 % 16;
    assert u / 0x100 == u / 0x1000 * 16 + u / 0x100 % 16;
  }

  /** A code point outside the surrogates as one escape, or as those of its two surrogates (section 2.1 of RFC 2781). */
  predicate Spelled(s: Bytes, at: nat, cp: nat) {
    if cp < 0x10000 then !(0xD800 <= cp < 0xE000) && Escapes(s, at, cp)
    else
      var bits := cp - 0x10000;
      cp <= 0x10FFFF && Escapes(s, at, 0xD800 + bits / 0x400) && Escapes(s, at + 6, 0xDC00 + bits % 0x400)
  }

  /** A spelled code point is decoded to it. */
  lemma WellFormedLiteral(s: Bytes, at: nat, end: nat, cp: nat)
    requires Spelled(s, at, cp) && at + (if cp < 0x10000 then 6 else 12) <= end <= |s|
    ensures LiteralAt(s, at, end) == Literal(if cp < 0x10000 then 6 else 12, cp)
  {
    hide Hex4, AllHex;
    if cp < 0x10000 {
      EscapeDigits(s, at, cp);
    } else {
      PairRoundTrip(cp);
      EscapeDigits(s, at, SurrogatesOf(cp).0);
      EscapeDigits(s, at + 6, SurrogatesOf(cp).1);
    }
  }

  /** An unpaired surrogate is rejected: a low one, or a high one without a low one behind it. */
  lemma UnpairedRejected(s: Bytes, at: nat, end: nat)
    requires at <= end <= |s|
    requires at + 6 <= end && (Low(Hex4(s, at + 2))
             || (High(Hex4(s, at + 2)) && !(at + 12 <= end && s[at + 6] == 92 && s[at + 7] == 117
                 && Low(Hex4(s, at + 8)))))
    ensures LiteralAt(s, at, end) == NoLiteral
  {
  }
}
