/** JSON trees and the text they print as, formatted or not. */
module Json {
  import opened Coding
  import opened Text
  import opened Utf

  datatype Value =
    | Null
    | False
    | True
    | Number(n: int)
    | String(s: Bytes)
    | Array(items: seq<Value>)
    | Object(members: seq<Member>)

  datatype Member = Member(key: Bytes, value: Value)

  const QUOTE: byte := 34
  const BACKSLASH: byte := 92
  const COMMA: byte := 44
  const COLON: byte := 58
  const TAB: byte := 9
  const NEWLINE: byte := 10
  const SPACE: byte := 32

  const INT_MAX: int := 2147483647
  const INT_MIN: int := -2147483648
  const NESTING_LIMIT: nat := 1000

  // ---- trees that print ----

  predicate NulFree(s: Bytes) { forall i {:trigger s[i]} :: 0 <= i < |s| ==> s[i] != 0 }

  /** Strings without NUL, and integers. */
  predicate Clean(v: Value)
    decreases v
  {
    match v
    case Null => true
    case False => true
    case True => true
    case Number(n) => INT_MIN <= n <= INT_MAX
    case String(s) => NulFree(s)
    case Array(items) => forall i {:trigger items[i]} :: 0 <= i < |items| ==> Clean(items[i])
    case Object(members) => forall i {:trigger members[i]} :: 0 <= i < |members| ==>
        NulFree(members[i].key) && Clean(members[i].value)
  }

  /** How deep arrays and objects are nested. */
  predicate Within(v: Value, depth: nat)
    decreases v
  {
    match v
    case Array(items) => depth > 0 && forall i {:trigger items[i]} :: 0 <= i < |items| ==> Within(items[i], depth - 1)
    case Object(members) => depth > 0 && forall i {:trigger members[i]} :: 0 <= i < |members| ==>
        Within(members[i].value, depth - 1)
    case _ => true
  }

  // ---- strings ----

  function EscapeByte(b: byte): (s: Bytes)
    ensures 1 <= |s| <= 6
  {
    if b == 34 || b == 92 then [92, b]
    else if b == 8 then [92, 98]
    else if b == 12 then [92, 102]
    else if b == 10 then [92, 110]
    else if b == 13 then [92, 114]
    else if b == 9 then [92, 116]
    else if b < 32 then [92, 117, 48, 48, HexChar(b / 16), HexChar(b % 16)]
    else [b]
  }

  function Escaped(s: Bytes, k: nat): Bytes
    requires k <= |s|
    decreases |s| - k
  {
    if k == |s| then [] else EscapeByte(s[k]) + Escaped(s, k + 1)
  }

  function Quoted(s: Bytes): Bytes { [QUOTE] + Escaped(s, 0) + [QUOTE] }

  // ---- values ----

  function Tabs(n: nat): (s: Bytes)
    ensures |s| == n && forall i :: 0 <= i < n ==> s[i] == TAB
  {
    seq(n, _ => TAB)
  }

  /** sprintf "%d". */
  function Integer(n: int): Bytes { if n < 0 then [45] + Decimal(-n) else Decimal(n) }

  function Print(v: Value, depth: nat, fmt: bool): Bytes
    decreases v, 2, 0
  {
    match v
    case Null => [110, 117, 108, 108]
    case False => [102, 97, 108, 115, 101]
    case True => [116, 114, 117, 101]
    case Number(n) => Integer(n)
    case String(s) => Quoted(s)
    case Array(items) => [91] + ItemsFrom(v, 0, depth + 1, fmt) + [93]
    case Object(members) => [123] + Break(fmt) + MembersFrom(v, 0, depth + 1, fmt) + Indent(depth, fmt) + [125]
  }

  function Break(fmt: bool): Bytes { if fmt then [NEWLINE] else [] }

  function Indent(depth: nat, fmt: bool): Bytes { if fmt then Tabs(depth) else [] }

  function Gap(c: byte, fmt: bool): Bytes { if fmt then [c] else [] }

  /** The elements from `k` on, with commas between. */
  function ItemsFrom(v: Value, k: nat, depth: nat, fmt: bool): Bytes
    requires v.Array? && k <= |v.items|
    decreases v, 1, |v.items| - k
  {
    if k == |v.items| then []
    else Print(v.items[k], depth, fmt)
         + (if k + 1 < |v.items| then [COMMA] + Gap(SPACE, fmt) else [])
         + ItemsFrom(v, k + 1, depth, fmt)
  }

  /** The members from `k` on, one to a line, with commas between. */
  function MembersFrom(v: Value, k: nat, depth: nat, fmt: bool): Bytes
    requires v.Object? && k <= |v.members|
    decreases v, 1, |v.members| - k
  {
    if k == |v.members| then []
    else MemberText(v, k, depth, fmt) + MembersFrom(v, k + 1, depth, fmt)
  }

  function MemberText(v: Value, k: nat, depth: nat, fmt: bool): Bytes
    requires v.Object? && k < |v.members|
    decreases v, 0, 0
  {
    Indent(depth, fmt) + Quoted(v.members[k].key) + [COLON] + Gap(TAB, fmt) + Print(v.members[k].value, depth, fmt)
    + (if k + 1 < |v.members| then [COMMA] else []) + Break(fmt)
  }

  // ---- no NUL in the text ----

  lemma NulFreeOver(s: Bytes, t: Bytes)
    requires NulFree(s) && NulFree(t)
    ensures NulFree(s + t)
  {
  }

  lemma {:induction false} EscapedNulFree(s: Bytes, k: nat)
    requires NulFree(s) && k <= |s|
    ensures NulFree(Escaped(s, k))
    decreases |s| - k
  {
    if k < |s| {
      EscapedNulFree(s, k + 1);
      NulFreeOver(EscapeByte(s[k]), Escaped(s, k + 1));
    }
  }

  lemma QuotedNulFree(s: Bytes)
    requires NulFree(s)
    ensures NulFree(Quoted(s))
  {
    EscapedNulFree(s, 0);
  }

  lemma IntegerNulFree(n: int)
    ensures NulFree(Integer(n)) && Integer(n) != []
  {
    var d := Decimal(if n < 0 then -n else n);
    forall i {:trigger d[i]} | 0 <= i < |d| ensures d[i] != 0 { assert IsDigit(d[i]); }
  }

  lemma {:induction false} PrintNulFree(v: Value, depth: nat, fmt: bool)
    requires Clean(v)
    ensures NulFree(Print(v, depth, fmt)) && Print(v, depth, fmt) != []
    decreases v, 2, 0
  {
    match v
    case Null =>
    case False =>
    case True =>
    case Number(n) => IntegerNulFree(n);
    case String(s) => QuotedNulFree(s);
    case Array(items) => ItemsNulFree(v, 0, depth + 1, fmt);
    case Object(members) => MembersNulFree(v, 0, depth + 1, fmt);
  }

  lemma {:induction false} ItemsNulFree(v: Value, k: nat, depth: nat, fmt: bool)
    requires v.Array? && k <= |v.items| && Clean(v)
    ensures NulFree(ItemsFrom(v, k, depth, fmt))
    decreases v, 1, |v.items| - k
  {
    if k < |v.items| {
      PrintNulFree(v.items[k], depth, fmt);
      ItemsNulFree(v, k + 1, depth, fmt);
    }
  }

  lemma {:induction false} MembersNulFree(v: Value, k: nat, depth: nat, fmt: bool)
    requires v.Object? && k <= |v.members| && Clean(v)
    ensures NulFree(MembersFrom(v, k, depth, fmt))
    decreases v, 1, |v.members| - k
  {
    if k < |v.members| {
      QuotedNulFree(v.members[k].key);
      PrintNulFree(v.members[k].value, depth, fmt);
      MembersNulFree(v, k + 1, depth, fmt);
      MemberNulFree(v, k, depth, fmt);
    }
  }

  lemma MemberNulFree(v: Value, k: nat, depth: nat, fmt: bool)
    requires v.Object? && k < |v.members| && NulFree(Quoted(v.members[k].key))
             && NulFree(Print(v.members[k].value, depth, fmt))
    ensures NulFree(MemberText(v, k, depth, fmt))
  {
  }
}
