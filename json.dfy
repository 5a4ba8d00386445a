/**
 * JSON values as the parsers produce them: `json.loads` on the backend and `JSON.parse` on the
 * frontend. Objects keep their members in the order the text gives them, which is the order of
 * a Python dictionary; numbers are integers.
 */
module JsonValues {
  import opened Wrappers

  datatype Json =
    | Null
    | Bool(b: bool)
    | Num(n: int)
    | Str(s: string)
    | Arr(items: seq<Json>)
    | Obj(members: seq<Member>)

  datatype Member = Member(key: string, value: Json)

  /** The value stored under `k`, if any (the first member with that key). */
  function Get(members: seq<Member>, k: string): (r: Option<Json>)
    ensures r.Some? <==> exists i :: 0 <= i < |members| && members[i].key == k
    decreases |members|
  {
    if members == [] then None
    else if members[0].key == k then Some(members[0].value)
    else
      var r := Get(members[1..], k);
      assert forall i :: 1 <= i < |members| ==> members[i] == members[1..][i - 1];
      r
  }

  /** JavaScript truthiness of a value, `undefined` (`None`) included. */
  predicate Truthy(v: Option<Json>) {
    match v
    case None => false
    case Some(Null) => false
    case Some(Bool(b)) => b
    case Some(Num(n)) => n != 0
    case Some(Str(s)) => s != ""
    case Some(Arr(_)) => true
    case Some(Obj(_)) => true
  }

  /** `v?.[k]`: `undefined` unless `v` is an object holding `k`. */
  function Prop(v: Option<Json>, k: string): Option<Json> {
    match v
    case Some(Obj(members)) => Get(members, k)
    case _ => None
  }

  /** `a || b`. */
  function Or(a: Option<Json>, b: Json): (r: Json)
    ensures Truthy(a) ==> Some(r) == a
    ensures !Truthy(a) ==> r == b
  {
    if Truthy(a) then a.value else b
  }

  // ---------------------------------------------------------------- JSON.stringify

  function DigitChar(d: nat): char
    requires d < 10
  {
    "0123456789"[d]
  }

  function Natural(n: nat): string
    decreases n
  {
    if n < 10 then [DigitChar(n)] else Natural(n / 10) + [DigitChar(n % 10)]
  }

  /** The decimal form of an integer. */
  function Decimal(n: int): string {
    if n < 0 then "-" + Natural(-n) else Natural(n)
  }

  function HexDigit(d: nat): char
    requires d < 16
  {
    "0123456789abcdef"[d]
  }

  /** One character of a string literal, escaped the way `JSON.stringify` escapes it. */
  function Escape(c: char): string {
    if c == '"' then "\\\""
    else if c == '\\' then "\\\\"
    else if c == '\U{8}' then "\\b"
    else if c == '\U{C}' then "\\f"
    else if c == '\n' then "\\n"
    else if c == '\r' then "\\r"
    else if c == '\t' then "\\t"
    else if (c as int) < 0x20 then "\\u00" + [HexDigit(c as int / 16), HexDigit(c as int % 16)]
    else [c]
  }

  function EscapeAll(s: string): string
    decreases |s|
  {
    if s == [] then [] else Escape(s[0]) + EscapeAll(s[1..])
  }

  function Quote(s: string): string {
    "\"" + EscapeAll(s) + "\""
  }

  /** `JSON.stringify(v)` without indentation. */
  function Stringify(v: Json): string
    decreases v, 2
  {
    match v
    case Null => "null"
    case Bool(b) => if b then "true" else "false"
    case Num(n) => Decimal(n)
    case Str(s) => Quote(s)
    case Arr(items) => "[" + StringifyItems(v, items) + "]"
    case Obj(members) => "{" + StringifyMembers(v, members) + "}"
  }

  function StringifyItems(ghost parent: Json, items: seq<Json>): string
    requires parent.Arr? && forall x :: x in items ==> x in parent.items
    decreases parent, 1, |items|
  {
    if items == [] then []
    else
      assert items[0] in parent.items;
      (if |items| == 1 then Stringify(items[0]) else Stringify(items[0]) + ",")
      + StringifyItems(parent, items[1..])
  }

  function StringifyMembers(ghost parent: Json, members: seq<Member>): string
    requires parent.Obj? && forall m :: m in members ==> m in parent.members
    decreases parent, 1, |members|
  {
    if members == [] then []
    else
      var m := members[0];
      assert m in parent.members;
      assert m.value < m < parent;
      Quote(m.key) + ":" + Stringify(m.value) + (if |members| == 1 then "" else ",")
      + StringifyMembers(parent, members[1..])
  }

  // ---------------------------------------------------------------- reading a string literal back

  /** The value of a lower-case hexadecimal digit; 0 for any other character. */
  function HexValue(c: char): (d: nat)
    ensures d < 16
  {
    if '0' <= c <= '9' then c as int - '0' as int
    else if 'a' <= c <= 'f' then c as int - 'a' as int + 10
    else 0
  }

  /** The character a one-letter escape `\e` stands for. */
  function EscapedChar(e: char): char {
    if e == 'b' then '\U{8}'
    else if e == 'f' then '\U{C}'
    else if e == 'n' then '\n'
    else if e == 'r' then '\r'
    else if e == 't' then '\t'
    else e
  }

  /**
   * The body of a string literal read back as `JSON.parse` reads it, escape by escape; a
   * `\u` escape is read from its last two digits, the only ones `Escape` does not fix at 0.
   */
  function Unescape(t: string): string
    decreases |t|
  {
    if t == [] then []
    else if t[0] == '\\' && |t| >= 6 && t[1] == 'u' then
      [(16 * HexValue(t[4]) + HexValue(t[5])) as char] + Unescape(t[6..])
    else if t[0] == '\\' && |t| >= 2 then [EscapedChar(t[1])] + Unescape(t[2..])
    else [t[0]] + Unescape(t[1..])
  }

  lemma HexRoundTrip(d: nat)
    requires d < 16
    ensures HexValue(HexDigit(d)) == d
  {
  }

  /** One escaped character is read back, and reading goes on right after it. */
  lemma UnescapeOne(c: char, rest: string)
    ensures Unescape(Escape(c) + rest) == [c] + Unescape(rest)
  {
    var t := Escape(c) + rest;
    if c == '"' || c == '\\' || c == '\U{8}' || c == '\U{C}' || c == '\n' || c == '\r' || c == '\t' {
      assert t[2..] == rest;
    } else if (c as int) < 0x20 {
      var hi, lo := c as int / 16, c as int % 16;
      HexRoundTrip(hi);
      HexRoundTrip(lo);
      assert t[1] == 'u' && t[4] == HexDigit(hi) && t[5] == HexDigit(lo);
      assert t[6..] == rest;
    } else {
      assert t[1..] == rest;
    }
  }

  /** `JSON.parse` undoes `JSON.stringify` on the body of a string literal. */
  lemma {:induction false} UnescapeEscapeAll(s: string)
    ensures Unescape(EscapeAll(s)) == s
    decreases |s|
  {
    if s != [] {
      UnescapeOne(s[0], EscapeAll(s[1..]));
      UnescapeEscapeAll(s[1..]);
    }
  }

  /** A string is written as a quoted literal whose body reads back as the string. */
  lemma StringifyStringRoundTrip(s: string)
    ensures var t := Stringify(Str(s));
      |t| >= 2 && t[0] == '"' && t[|t| - 1] == '"' && Unescape(t[1..|t| - 1]) == s
  {
    var t := Stringify(Str(s));
    assert t[1..|t| - 1] == EscapeAll(s);
    UnescapeEscapeAll(s);
  }

  /** The decimal form of a natural number starts with a digit. */
  lemma {:induction false} NaturalHead(n: nat)
    ensures |Natural(n)| >= 1 && '0' <= Natural(n)[0] <= '9'
    decreases n
  {
    if n >= 10 {
      NaturalHead(n / 10);
    }
  }

  /**
   * `JSON.stringify` tells a string apart from every other value: the text of `v` is the text of
   * the string `a` exactly when `v` is that string.
   */
  lemma StringKeyInjective(a: string, v: Json)
    ensures Stringify(v) == Stringify(Str(a)) <==> v == Str(a)
  {
    var t := Stringify(Str(a));
    StringifyStringRoundTrip(a);
    match v
    case Str(b) =>
      StringifyStringRoundTrip(b);
    case Num(n) =>
      if n < 0 {
        assert Stringify(v)[0] == '-';
      } else {
        NaturalHead(n);
      }
    case _ =>
  }
}
