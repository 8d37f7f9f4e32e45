/** The grammar of numbers in JSON text, section 6 of RFC 8259. */
module Numerals {

  predicate IsDigit(c: char) {
    '0' <= c <= '9'
  }

  predicate StartsWithDigit(t: string) {
    t != "" && IsDigit(t[0])
  }

  /** The length of the digits a text starts with. */
  function DigitsEnd(t: string): (n: nat)
    ensures n <= |t|
  {
    if !StartsWithDigit(t) then 0 else 1 + DigitsEnd(t[1..])
  }

  /** The length of the integer a text starts with, zero if there is none; no leading zeros. */
  function IntEnd(t: string): (n: nat)
    ensures n <= |t|
  {
    var sign := if t != "" && t[0] == '-' then 1 else 0;
    if !StartsWithDigit(t[sign..]) then 0
    else if t[sign] == '0' then sign + 1
    else sign + DigitsEnd(t[sign..])
  }

  function FractionEnd(t: string): (n: nat)
    ensures n <= |t|
  {
    if t != "" && t[0] == '.' && StartsWithDigit(t[1..]) then 1 + DigitsEnd(t[1..]) else 0
  }

  function ExponentEnd(t: string): (n: nat)
    ensures n <= |t|
  {
    if t == "" || (t[0] != 'e' && t[0] != 'E') then 0
    else
      var sign := if |t| > 1 && (t[1] == '+' || t[1] == '-') then 2 else 1;
      if StartsWithDigit(t[sign..]) then sign + DigitsEnd(t[sign..]) else 0
  }

  /** The length of the number a text starts with. */
  function NumberEnd(t: string): (n: nat)
    ensures IntEnd(t) <= n <= |t|
  {
    var a := IntEnd(t);
    if a == 0 then 0
    else
      var b := a + FractionEnd(t[a..]);
      b + ExponentEnd(t[b..])
  }

  predicate IsFloat(s: string) {
    s == "NaN" || s == "Infinity" || s == "-Infinity" || (NumberEnd(s) == |s| && IntEnd(s) < |s|)
  }

  /** What can follow a number inside a JSON text, or its end. */
  predicate Delimits(r: string) {
    r == "" || r[0] == ',' || r[0] == ']' || r[0] == '}'
  }

  // ---------- A number ends where it ends, whatever delimits it ----------

  lemma {:induction false} DigitsEndBefore(t: string, r: string)
    requires Delimits(r)
    ensures DigitsEnd(t + r) == DigitsEnd(t)
  {
    if StartsWithDigit(t) {
      assert (t + r)[1..] == t[1..] + r;
      DigitsEndBefore(t[1..], r);
    } else if t == "" {
      assert t + r == r;
    }
  }

  lemma {:induction false} IntEndBefore(t: string, r: string)
    requires t != "" && Delimits(r)
    ensures IntEnd(t + r) == IntEnd(t)
  {
    var sign := if t[0] == '-' then 1 else 0;
    assert (t + r)[sign..] == t[sign..] + r;
    DigitsEndBefore(t[sign..], r);
    StartBefore(t[sign..], r);
  }

  lemma {:induction false} StartBefore(t: string, r: string)
    requires Delimits(r)
    ensures StartsWithDigit(t + r) == StartsWithDigit(t)
  {
    if t == "" {
      assert t + r == r;
    }
  }

  lemma {:induction false} FractionEndBefore(t: string, r: string)
    requires Delimits(r)
    ensures FractionEnd(t + r) == FractionEnd(t)
  {
    if t == "" {
      assert t + r == r;
    } else {
      assert (t + r)[1..] == t[1..] + r;
      DigitsEndBefore(t[1..], r);
      StartBefore(t[1..], r);
    }
  }

  lemma {:induction false} ExponentEndBefore(t: string, r: string)
    requires Delimits(r)
    ensures ExponentEnd(t + r) == ExponentEnd(t)
  {
    if t == "" {
      assert t + r == r;
    } else {
      var sign := if |t| > 1 && (t[1] == '+' || t[1] == '-') then 2 else 1;
      assert (t + r)[sign..] == t[sign..] + r;
      DigitsEndBefore(t[sign..], r);
      StartBefore(t[sign..], r);
    }
  }

  lemma {:induction false} NumberEndBefore(t: string, r: string)
    requires t != "" && Delimits(r)
    ensures IntEnd(t + r) == IntEnd(t) && NumberEnd(t + r) == NumberEnd(t)
  {
    IntEndBefore(t, r);
    var a := IntEnd(t);
    assert (t + r)[a..] == t[a..] + r;
    FractionEndBefore(t[a..], r);
    var b := a + FractionEnd(t[a..]);
    assert (t + r)[b..] == t[b..] + r;
    ExponentEndBefore(t[b..], r);
  }

  // ---------- What is cut off there is a number ----------

  lemma {:induction false} DigitsOfPrefix(t: string, n: nat)
    requires DigitsEnd(t) <= n <= |t|
    ensures DigitsEnd(t[..n]) == DigitsEnd(t) && (n > 0 ==> StartsWithDigit(t[..n]) == StartsWithDigit(t))
  {
    if StartsWithDigit(t) {
      assert t[..n][1..] == t[1..][..n - 1];
      DigitsOfPrefix(t[1..], n - 1);
    }
  }

  lemma {:induction false} IntOfPrefix(t: string, n: nat)
    requires 0 < IntEnd(t) <= n <= |t|
    ensures IntEnd(t[..n]) == IntEnd(t)
  {
    var sign := if t[0] == '-' then 1 else 0;
    assert t[..n][sign..] == t[sign..][..n - sign];
    if t[sign] != '0' {
      DigitsOfPrefix(t[sign..], n - sign);
    }
  }

  lemma {:induction false} FractionOfPrefix(t: string, n: nat)
    requires FractionEnd(t) <= n <= |t| && (n == 0 || FractionEnd(t) > 0 || t[0] != '.')
    ensures FractionEnd(t[..n]) == FractionEnd(t)
  {
    if FractionEnd(t) > 0 {
      assert t[..n][1..] == t[1..][..n - 1];
      DigitsOfPrefix(t[1..], n - 1);
    }
  }

  lemma {:induction false} ExponentOfPrefix(t: string)
    ensures ExponentEnd(t[..ExponentEnd(t)]) == ExponentEnd(t)
  {
    var n := ExponentEnd(t);
    if n > 0 {
      var sign := if |t| > 1 && (t[1] == '+' || t[1] == '-') then 2 else 1;
      assert t[..n][sign..] == t[sign..][..n - sign];
      DigitsOfPrefix(t[sign..], n - sign);
    }
  }

  lemma {:induction false} RestOfPrefix(t: string, a: nat, n: nat)
    requires a <= n <= |t|
    ensures t[..n][a..] == t[a..][..n - a]
  {
  }

  lemma {:induction false} SameParts(s: string, t: string, a: nat, b: nat)
    requires b <= |s| && b <= |t| && IntEnd(s) == IntEnd(t) == a > 0
    requires FractionEnd(s[a..]) == FractionEnd(t[a..]) == b - a
    requires ExponentEnd(s[b..]) == ExponentEnd(t[b..])
    ensures NumberEnd(s) == NumberEnd(t)
  {
  }

  /** The number a text starts with is one by itself. */
  lemma {:induction false} NumberIsNumber(t: string)
    requires NumberEnd(t) > 0
    ensures var s := t[..NumberEnd(t)];
            NumberEnd(s) == |s| && IntEnd(s) == IntEnd(t)
  {
    var n, a := NumberEnd(t), IntEnd(t);
    var b := a + FractionEnd(t[a..]);
    IntOfPrefix(t, n);
    RestOfPrefix(t, a, n);
    FractionOfPrefix(t[a..], n - a);
    RestOfPrefix(t, b, n);
    ExponentOfPrefix(t[b..]);
    SameParts(t[..n], t, a, b);
  }

  // ---------- Its characters ----------

  predicate IsNumberText(s: string) {
    forall i :: 0 <= i < |s| ==> IsDigit(s[i]) || s[i] in "-+.eE"
  }

  lemma {:induction false} DigitsAreDigits(t: string)
    ensures IsNumberText(t[..DigitsEnd(t)])
  {
    if StartsWithDigit(t) {
      DigitsAreDigits(t[1..]);
      assert t[..DigitsEnd(t)] == [t[0]] + t[1..][..DigitsEnd(t[1..])];
    }
  }

  lemma {:induction false} JoinedNumberText(a: string, b: string)
    requires IsNumberText(a) && IsNumberText(b)
    ensures IsNumberText(a + b)
  {
  }

  lemma {:induction false} IntChars(t: string)
    ensures IsNumberText(t[..IntEnd(t)])
  {
    var sign := if t != "" && t[0] == '-' then 1 else 0;
    if StartsWithDigit(t[sign..]) && t[sign] != '0' {
      DigitsAreDigits(t[sign..]);
      JoinedNumberText(t[..sign], t[sign..][..DigitsEnd(t[sign..])]);
      assert t[..IntEnd(t)] == t[..sign] + t[sign..][..DigitsEnd(t[sign..])];
    }
  }

  lemma {:induction false} FractionChars(t: string)
    ensures IsNumberText(t[..FractionEnd(t)])
  {
    if FractionEnd(t) > 0 {
      DigitsAreDigits(t[1..]);
      JoinedNumberText(".", t[1..][..DigitsEnd(t[1..])]);
      assert t[..FractionEnd(t)] == "." + t[1..][..DigitsEnd(t[1..])];
    }
  }

  lemma {:induction false} ExponentChars(t: string)
    ensures IsNumberText(t[..ExponentEnd(t)])
  {
    if ExponentEnd(t) > 0 {
      var sign := if |t| > 1 && (t[1] == '+' || t[1] == '-') then 2 else 1;
      DigitsAreDigits(t[sign..]);
      JoinedNumberText(t[..sign], t[sign..][..DigitsEnd(t[sign..])]);
      assert t[..ExponentEnd(t)] == t[..sign] + t[sign..][..DigitsEnd(t[sign..])];
    }
  }

  lemma {:induction false} SplitText(t: string, a: nat, b: nat)
    requires a <= b <= |t| && IsNumberText(t[..a]) && IsNumberText(t[a..][..b - a])
    ensures IsNumberText(t[..b])
  {
    JoinedNumberText(t[..a], t[a..][..b - a]);
    assert t[..b] == t[..a] + t[a..][..b - a];
  }

  lemma {:induction false} NumberChars(t: string)
    ensures IsNumberText(t[..NumberEnd(t)])
  {
    if NumberEnd(t) > 0 {
      var a := IntEnd(t);
      var b := a + FractionEnd(t[a..]);
      IntChars(t);
      FractionChars(t[a..]);
      SplitText(t, a, b);
      ExponentChars(t[b..]);
      SplitText(t, b, NumberEnd(t));
    }
  }

  lemma {:induction false} AllDigitsEnd(t: string)
    requires forall i :: 0 <= i < |t| ==> IsDigit(t[i])
    ensures DigitsEnd(t) == |t|
  {
    if t != "" {
      AllDigitsEnd(t[1..]);
    }
  }
}

/**
 JSON values, their text as Python's `json.dumps` writes it (ASCII output, `, ` and `: `
 separators), and the deletion of NUL escapes the event sink performs before a payload
 reaches a `jsonb` column.
 */
module Json {
  import opened Text
  import opened Numerals

  /** What Python writes for a float: a number with a fraction or an exponent, or one of three names. */
  type FloatLexeme = s: string | IsFloat(s) witness "0.0"

  datatype Json =
    | JNull
    | JBool(b: bool)
    | JInt(n: int)
    | JFloat(lexeme: FloatLexeme)
    | JStr(s: string)
    | JArr(items: seq<Json>)
    | JObj(fields: seq<Field>)

  datatype Field = Field(key: string, value: Json)

  /** A printable ASCII character other than the backslash. */
  predicate Plain(c: char) {
    ' ' <= c <= '~' && c != '\\'
  }

  function HexDigit(d: nat): char
    requires d < 16
  {
    if d < 10 then '0' + d as char else 'a' + (d - 10) as char
  }

  function Hex4(n: nat): string
    requires n < 0x1_0000
  {
    [HexDigit(n / 0x1000), HexDigit(n / 0x100 % 0x10), HexDigit(n / 0x10 % 0x10), HexDigit(n % 0x10)]
  }

  function UnicodeEscape(n: nat): string
    requires n < 0x1_0000
  {
    "\\u" + Hex4(n)
  }

  /** One character of a string body. Characters beyond the basic plane become a surrogate pair. */
  function EncodeChar(c: char): string {
    if c == '"' then "\\\""
    else if c == '\\' then "\\\\"
    else if c == '\n' then "\\n"
    else if c == '\r' then "\\r"
    else if c == '\t' then "\\t"
    else if c == '\U{000C}' then "\\f"
    else if c == '\U{0008}' then "\\b"
    else if ' ' <= c <= '~' then [c]
    else if c as int < 0x1_0000 then UnicodeEscape(c as int)
    else
      var n := c as int - 0x1_0000;
      UnicodeEscape(0xd800 + n / 0x400 % 0x400) + UnicodeEscape(0xdc00 + n % 0x400)
  }

  function EncodeBody(s: string): string {
    if s == "" then "" else EncodeChar(s[0]) + EncodeBody(s[1..])
  }

  function EncodeInt(n: int): string {
    if n < 0 then "-" + Decimal(-n) else Decimal(n)
  }

  function Encode(v: Json): string {
    match v
    case JNull => "null"
    case JBool(b) => if b then "true" else "false"
    case JInt(n) => EncodeInt(n)
    case JFloat(lexeme) => lexeme
    case JStr(s) => EncodeString(s)
    case JArr(items) => "[" + EncodeItems(items) + "]"
    case JObj(fields) => "{" + EncodeFields(fields) + "}"
  }

  function EncodeString(s: string): string {
    "\"" + EncodeBody(s) + "\""
  }

  function Comma(more: bool): string {
    if more then ", " else ""
  }

  function EncodeItems(items: seq<Json>): string {
    if |items| == 0 then ""
    else Encode(items[0]) + Comma(|items| > 1) + EncodeItems(items[1..])
  }

  function EncodeFields(fields: seq<Field>): string {
    if |fields| == 0 then ""
    else
      match fields[0] case Field(k, x) =>
        EncodeString(k) + ": " + Encode(x) + Comma(|fields| > 1) + EncodeFields(fields[1..])
  }

  // ---------- Reading a parsed object, the way the Python code does ----------

  /** `key in v`, for an object. */
  predicate Has(v: Json, key: string) {
    v.JObj? && exists i :: 0 <= i < |v.fields| && v.fields[i].key == key
  }

  function LastField(fields: seq<Field>, key: string): Json {
    if |fields| == 0 then JNull
    else if fields[|fields| - 1].key == key then fields[|fields| - 1].value
    else LastField(fields[..|fields| - 1], key)
  }

  /** `v.get(key)`, with null for a missing key; a repeated key means its last value. */
  function Get(v: Json, key: string): Json {
    if v.JObj? then LastField(v.fields, key) else JNull
  }

  predicate Truthy(v: Json) {
    match v
    case JNull => false
    case JBool(b) => b
    case JInt(n) => n != 0
    case JFloat(lexeme) => lexeme != "0.0" && lexeme != "-0.0"
    case JStr(s) => s != ""
    case JArr(items) => |items| > 0
    case JObj(fields) => |fields| > 0
  }

  /** `v or default`. */
  function Or(v: Json, default: Json): Json {
    if Truthy(v) then v else default
  }

  const EMPTY := JObj([])
}

/** `_jsonb_safe_dumps`: deleting NUL escapes from the text against deleting NULs from the value. */
module NulStripping {
  import opened Text
  import opened Numerals
  import opened Json

  const NUL_ESCAPE := "\\u0000"

  /** Python's `text.replace("\\u0000", "")`: one left-to-right pass. */
  function DeleteEscapes(t: string): string {
    if t == "" then ""
    else if NUL_ESCAPE <= t then DeleteEscapes(t[|NUL_ESCAPE|..])
    else [t[0]] + DeleteEscapes(t[1..])
  }

  /** Python's `text.replace("\x00", "")`, and the same deletion on a string value. */
  function DeleteNuls(s: string): string {
    if s == "" then ""
    else if s[0] == '\0' then DeleteNuls(s[1..])
    else [s[0]] + DeleteNuls(s[1..])
  }

  function JsonbSafeDumps(v: Json): string {
    DeleteNuls(DeleteEscapes(Encode(v)))
  }

  /** The value with its NUL characters removed, from keys as well as strings. */
  function StripNuls(v: Json): Json {
    match v
    case JStr(s) => JStr(DeleteNuls(s))
    case JArr(items) => JArr(StripItems(items))
    case JObj(fields) => JObj(StripFields(fields))
    case _ => v
  }

  function StripItems(items: seq<Json>): (r: seq<Json>)
    ensures |r| == |items|
  {
    if |items| == 0 then [] else [StripNuls(items[0])] + StripItems(items[1..])
  }

  function StripFields(fields: seq<Field>): (r: seq<Field>)
    ensures |r| == |fields|
  {
    if |fields| == 0 then []
    else
      match fields[0] case Field(k, x) =>
        [Field(DeleteNuls(k), StripNuls(x))] + StripFields(fields[1..])
  }

  /** A backslash directly followed by `u0000`. */
  predicate StartsHazard(s: string) {
    s != "" && s[0] == '\\' && "u0000" <= s[1..]
  }

  /** How many hazards a string holds. */
  function StringHazards(s: string): nat {
    if s == "" then 0
    else (if StartsHazard(s) then 1 else 0) + StringHazards(s[1..])
  }

  /** The same count over every string and key of a value. */
  function Hazards(v: Json): nat {
    match v
    case JStr(s) => StringHazards(s)
    case JArr(items) => ItemHazards(items)
    case JObj(fields) => FieldHazards(fields)
    case _ => 0
  }

  function ItemHazards(items: seq<Json>): nat {
    if |items| == 0 then 0 else Hazards(items[0]) + ItemHazards(items[1..])
  }

  function FieldHazards(fields: seq<Field>): nat {
    if |fields| == 0 then 0
    else
      match fields[0] case Field(k, x) =>
        StringHazards(k) + Hazards(x) + FieldHazards(fields[1..])
  }

  // ---------- The deletion pass on one string body ----------

  /** What the pass leaves of an encoded string body: each hazard loses its last six characters. */
  function ScanBody(s: string): string {
    if s == "" then ""
    else if s[0] == '\0' then ScanBody(s[1..])
    else if StartsHazard(s) then "\\" + ScanBody(s[6..])
    else EncodeChar(s[0]) + ScanBody(s[1..])
  }

  predicate AllPlain(p: string) {
    forall i :: 0 <= i < |p| ==> Plain(p[i])
  }

  lemma {:induction false} PlainTextIsKept(p: string, r: string)
    requires AllPlain(p)
    ensures DeleteEscapes(p + r) == p + DeleteEscapes(r)
  {
    if p == "" {
      assert p + r == r;
    } else {
      assert (p + r)[0] == p[0] && (p + r)[1..] == p[1..] + r;
      PlainTextIsKept(p[1..], r);
    }
  }

  lemma HexIsPlain(n: nat)
    requires n < 0x1_0000
    ensures AllPlain(Hex4(n))
    ensures Hex4(n) == "0000" <==> n == 0
  {
    assert forall d: nat :: d < 16 ==> Plain(HexDigit(d)) && (HexDigit(d) == '0' <==> d == 0);
    assert n == 0 <==> n / 0x1000 == n / 0x100 % 0x10 == n / 0x10 % 0x10 == n % 0x10 == 0;
  }

  /** A `\uXXXX` escape other than NUL's survives, whatever follows it. */
  lemma UnicodeEscapeIsKept(n: nat, r: string)
    requires 0 < n < 0x1_0000
    ensures DeleteEscapes(UnicodeEscape(n) + r) == UnicodeEscape(n) + DeleteEscapes(r)
  {
    HexIsPlain(n);
    var t := UnicodeEscape(n) + r;
    assert t[2..6] == Hex4(n);
    assert NUL_ESCAPE[2..6] == "0000";
    assert !(NUL_ESCAPE <= t);
    assert t[1..] == ("u" + Hex4(n)) + r;
    PlainTextIsKept("u" + Hex4(n), r);
    assert UnicodeEscape(n) == ['\\'] + ("u" + Hex4(n));
  }

  lemma EscapePairIsKept(hi: nat, lo: nat, r: string)
    requires 0 < hi < 0x1_0000 && 0 < lo < 0x1_0000
    ensures DeleteEscapes(UnicodeEscape(hi) + UnicodeEscape(lo) + r)
         == UnicodeEscape(hi) + UnicodeEscape(lo) + DeleteEscapes(r)
  {
    var a, b := UnicodeEscape(hi), UnicodeEscape(lo);
    Regroup(a, b, r);
    UnicodeEscapeIsKept(hi, b + r);
    UnicodeEscapeIsKept(lo, r);
    Regroup(a, b, DeleteEscapes(r));
  }

  lemma TwoCharEscapeIsKept(e: char, r: string)
    requires Plain(e) && e != 'u'
    ensures DeleteEscapes(['\\', e] + r) == ['\\', e] + DeleteEscapes(r)
  {
    var t := ['\\', e] + r;
    assert t[1] == e && NUL_ESCAPE[1] == 'u';
    assert !(NUL_ESCAPE <= t);
    assert t[1..] == [e] + r;
    PlainTextIsKept([e], r);
  }

  /** Every encoded character but NUL and the backslash survives the pass untouched. */
  lemma CharIsKept(c: char, r: string)
    requires c != '\0' && c != '\\'
    ensures DeleteEscapes(EncodeChar(c) + r) == EncodeChar(c) + DeleteEscapes(r)
  {
    var e := EncodeChar(c);
    if e == [c] {
      PlainTextIsKept(e, r);
    } else if |e| == 2 {
      var k := e[1];
      assert e == ['\\', k] && Plain(k) && k != 'u';
      TwoCharEscapeIsKept(k, r);
    } else if c as int < 0x1_0000 {
      assert e == UnicodeEscape(c as int);
      UnicodeEscapeIsKept(c as int, r);
    } else {
      var n := c as int - 0x1_0000;
      assert e == UnicodeEscape(0xd800 + n / 0x400 % 0x400) + UnicodeEscape(0xdc00 + n % 0x400);
      EscapePairIsKept(0xd800 + n / 0x400 % 0x400, 0xdc00 + n % 0x400, r);
    }
  }

  lemma EncodeCharShape(c: char)
    ensures |EncodeChar(c)| >= 1
    ensures EncodeChar(c)[0] == '\\' || EncodeChar(c) == [c]
    ensures EncodeChar(c) == [c] ==> Plain(c) && c != '"'
  {
  }

  /** Encoded text starts with unescaped characters exactly when the string does. */
  lemma {:induction false} PlainPrefix(p: string, s: string, r: string)
    requires AllPlain(p) && '"' !in p
    ensures p <= EncodeBody(s) + ("\"" + r) <==> p <= s
  {
    var t := EncodeBody(s) + ("\"" + r);
    if p == "" {
    } else if s == "" {
      assert t[0] == '"';
    } else {
      EncodeCharShape(s[0]);
      var rest := EncodeBody(s[1..]) + ("\"" + r);
      assert t == EncodeChar(s[0]) + rest;
      if EncodeChar(s[0]) == [s[0]] {
        PlainPrefix(p[1..], s[1..], r);
        PrefixStep(p, s[0], rest);
        assert s == [s[0]] + s[1..];
        PrefixStep(p, s[0], s[1..]);
      } else {
        assert t[0] == '\\';
        assert !Plain(s[0]) || s[0] == '"';
      }
    }
  }

  lemma PrefixStep(p: string, c: char, rest: string)
    requires p != ""
    ensures p <= [c] + rest <==> p[0] == c && p[1..] <= rest
  {
    var t := [c] + rest;
    assert t[1..] == rest;
    if p[0] == c && p[1..] <= rest {
      assert p == [p[0]] + p[1..] == t[..|p|];
    }
  }

  lemma {:induction false} PlainStep(s: string)
    requires s != "" && Plain(s[0]) && s[0] != '"'
    ensures EncodeBody(s) == [s[0]] + EncodeBody(s[1..])
    ensures StringHazards(s) == StringHazards(s[1..])
    ensures DeleteNuls(s) == [s[0]] + DeleteNuls(s[1..])
  {
    PlainChar(s[0]);
  }

  lemma PlainChar(c: char)
    requires Plain(c) && c != '"'
    ensures EncodeChar(c) == [c]
  {
  }

  /** Unescaped characters pass through every function on string bodies. */
  lemma {:induction false} PlainHead(p: string, s: string)
    requires AllPlain(p) && '"' !in p && p <= s
    ensures EncodeBody(s) == p + EncodeBody(s[|p|..])
    ensures StringHazards(s) == StringHazards(s[|p|..])
    ensures DeleteNuls(s) == p + DeleteNuls(s[|p|..])
  {
    if p == "" {
      assert s[|p|..] == s;
    } else {
      assert s[0] == p[0] && Plain(p[0]);
      PlainStep(s);
      PlainHead(p[1..], s[1..]);
      var rest := s[|p|..];
      assert s[1..][|p| - 1..] == rest;
      Regroup([p[0]], p[1..], EncodeBody(rest));
      Regroup([p[0]], p[1..], DeleteNuls(rest));
      assert [p[0]] + p[1..] == p;
    }
  }

  lemma Regroup(a: string, b: string, c: string)
    ensures (a + b) + c == a + (b + c)
  {
  }

  lemma HazardTail(s: string)
    requires StartsHazard(s)
    ensures EncodeBody(s) == "\\" + (NUL_ESCAPE + EncodeBody(s[6..]))
    ensures StringHazards(s) == 1 + StringHazards(s[6..])
    ensures DeleteNuls(s) == NUL_ESCAPE + DeleteNuls(s[6..])
  {
    var p, rest := "u0000", s[6..];
    PlainHead(p, s[1..]);
    assert s[1..][5..] == rest;
    Regroup("\\", p, EncodeBody(rest));
    Regroup("\\", p, DeleteNuls(rest));
    assert "\\" + p == NUL_ESCAPE;
    BackslashStep(s);
    assert "\\\\" == "\\" + "\\";
    Regroup("\\", "\\", p + EncodeBody(rest));
  }

  lemma BackslashStep(s: string)
    requires s != "" && s[0] == '\\'
    ensures EncodeBody(s) == "\\\\" + EncodeBody(s[1..])
    ensures DeleteNuls(s) == "\\" + DeleteNuls(s[1..])
  {
    assert EncodeChar('\\') == "\\\\";
  }

  /** A backslash that the following text does not turn into a NUL escape. */
  lemma LoneBackslash(t: string)
    requires !("u0000" <= t)
    ensures DeleteEscapes("\\" + t) == "\\" + DeleteEscapes(t)
  {
    var u := ['\\'] + t;
    assert u[1..] == t;
    assert NUL_ESCAPE == ['\\'] + "u0000";
    ConsPrefix('\\', "u0000", t);
  }

  lemma ConsPrefix(c: char, p: string, t: string)
    ensures [c] + p <= [c] + t <==> p <= t
  {
    assert ([c] + t)[1..] == t && ([c] + p)[1..] == p;
    assert [c] + p <= [c] + t ==> forall i :: 0 <= i < |p| ==> p[i] == ([c] + p)[i + 1] == ([c] + t)[i + 1] == t[i];
  }

  lemma NotUnicode(t: string)
    ensures !("u0000" <= "\\" + t)
  {
    assert ("\\" + t)[0] == '\\';
    assert "u0000"[0] == 'u';
  }

  lemma PassOnHazard(s: string, q: string, r: string)
    requires StartsHazard(s)
    requires DeleteEscapes(EncodeBody(s[6..]) + q) == r
    ensures DeleteEscapes(EncodeBody(s) + q) == "\\" + r
  {
    HazardTail(s);
    var tail := EncodeBody(s[6..]) + q;
    Regroup("\\", NUL_ESCAPE + EncodeBody(s[6..]), q);
    Regroup(NUL_ESCAPE, EncodeBody(s[6..]), q);
    Regroup("\\", "u0000", tail);
    assert NUL_ESCAPE == "\\" + "u0000";
    NotUnicode("u0000" + tail);
    LoneBackslash(NUL_ESCAPE + tail);
    PassOnNul(tail);
  }

  lemma PassOnBackslash(rest: string)
    requires !("u0000" <= rest)
    ensures DeleteEscapes("\\\\" + rest) == "\\\\" + DeleteEscapes(rest)
  {
    assert "\\\\" == "\\" + "\\";
    Regroup("\\", "\\", rest);
    NotUnicode(rest);
    LoneBackslash("\\" + rest);
    LoneBackslash(rest);
    Regroup("\\", "\\", DeleteEscapes(rest));
  }

  /** The pass over an encoded body and its closing quote is `ScanBody`. */
  lemma {:induction false} PassOnBody(s: string, r: string)
    ensures DeleteEscapes(EncodeBody(s) + ("\"" + r)) == ScanBody(s) + ("\"" + DeleteEscapes(r))
  {
    var q, q' := "\"" + r, "\"" + DeleteEscapes(r);
    if s == "" {
      PlainTextIsKept("\"", r);
      assert EncodeBody(s) + q == q;
      assert ScanBody(s) + q' == q';
    } else if StartsHazard(s) {
      PassOnBody(s[6..], r);
      PassOnHazard(s, q, ScanBody(s[6..]) + q');
      Regroup("\\", ScanBody(s[6..]), q');
    } else {
      PassOnBody(s[1..], r);
      PassOnChar(s, EncodeBody(s[1..]), q, ScanBody(s[1..]), q', r);
    }
  }

  lemma PassOnChar(s: string, e: string, q: string, e': string, q': string, r: string)
    requires s != "" && !StartsHazard(s)
    requires e == EncodeBody(s[1..]) && q == "\"" + r
    requires DeleteEscapes(e + q) == e' + q'
    ensures DeleteEscapes(EncodeChar(s[0]) + e + q)
         == (if s[0] == '\0' then e' else EncodeChar(s[0]) + e') + q'
  {
    Regroup(EncodeChar(s[0]), e, q);
    Regroup(EncodeChar(s[0]), e', q');
    if s[0] == '\0' {
      PassOnNul(e + q);
    } else if s[0] == '\\' {
      PlainPrefix("u0000", s[1..], r);
      PassOnBackslash(e + q);
    } else {
      CharIsKept(s[0], e + q);
    }
  }

  lemma PassOnNul(t: string)
    ensures EncodeChar('\0') == NUL_ESCAPE
    ensures DeleteEscapes(NUL_ESCAPE + t) == DeleteEscapes(t)
  {
    assert (NUL_ESCAPE + t)[6..] == t;
  }

  lemma {:induction false} ScanAgainstStrip(s: string)
    ensures |ScanBody(s)| + 6 * StringHazards(s) == |EncodeBody(DeleteNuls(s))|
    ensures StringHazards(s) == 0 ==> ScanBody(s) == EncodeBody(DeleteNuls(s))
  {
    if s == "" {
    } else if s[0] == '\0' {
      ScanAgainstStrip(s[1..]);
    } else if StartsHazard(s) {
      HazardTail(s);
      ScanAgainstStrip(s[6..]);
      var d := DeleteNuls(s);
      assert d[6..] == DeleteNuls(s[6..]);
      HazardTail(d);
    } else {
      ScanAgainstStrip(s[1..]);
      var d := DeleteNuls(s);
      assert d[0] == s[0] && d[1..] == DeleteNuls(s[1..]);
    }
  }

  // ---------- The deletion pass on a whole value ----------

  function Scan(v: Json): string {
    match v
    case JStr(s) => ScanString(s)
    case JArr(items) => "[" + ScanItems(items) + "]"
    case JObj(fields) => "{" + ScanFields(fields) + "}"
    case _ => Encode(v)
  }

  function ScanString(s: string): string {
    "\"" + ScanBody(s) + "\""
  }

  function ScanItems(items: seq<Json>): string {
    if |items| == 0 then ""
    else Scan(items[0]) + Comma(|items| > 1) + ScanItems(items[1..])
  }

  function ScanFields(fields: seq<Field>): string {
    if |fields| == 0 then ""
    else
      match fields[0] case Field(k, x) =>
        ScanString(k) + ": " + Scan(x) + Comma(|fields| > 1) + ScanFields(fields[1..])
  }

  lemma NumeralIsPlain(n: int)
    ensures AllPlain(EncodeInt(n))
  {
    DecimalIsDigits(if n < 0 then -n else n);
  }

  lemma FloatIsPlain(lexeme: FloatLexeme)
    ensures AllPlain(lexeme)
  {
    if lexeme == "NaN" || lexeme == "Infinity" || lexeme == "-Infinity" {
      assert AllPlain("NaN") && AllPlain("Infinity") && AllPlain("-Infinity");
    } else {
      NumberChars(lexeme);
      assert lexeme[..NumberEnd(lexeme)] == lexeme;
    }
  }

  lemma Wrapped(open: string, body: string, close: string, r: string)
    ensures open + body + close + r == open + (body + (close + r))
  {
  }

  lemma PassOnString(s: string, r: string)
    ensures DeleteEscapes(EncodeString(s) + r) == ScanString(s) + DeleteEscapes(r)
  {
    var body := EncodeBody(s);
    Wrapped("\"", body, "\"", r);
    PlainTextIsKept("\"", body + ("\"" + r));
    PassOnBody(s, r);
    Wrapped("\"", ScanBody(s), "\"", DeleteEscapes(r));
  }

  lemma {:induction false} PassOnValue(v: Json, r: string)
    ensures DeleteEscapes(Encode(v) + r) == Scan(v) + DeleteEscapes(r)
    decreases v, 0
  {
    match v
    case JNull => PlainTextIsKept("null", r);
    case JBool(b) => PlainTextIsKept(Encode(v), r);
    case JInt(n) =>
      NumeralIsPlain(n);
      PlainTextIsKept(Encode(v), r);
    case JFloat(lexeme) =>
      FloatIsPlain(lexeme);
      PlainTextIsKept(lexeme, r);
    case JStr(s) => PassOnString(s, r);
    case JArr(items) =>
      Wrapped("[", EncodeItems(items), "]", r);
      PlainTextIsKept("[", EncodeItems(items) + ("]" + r));
      PassOnItems(items, "]" + r);
      PlainTextIsKept("]", r);
      Wrapped("[", ScanItems(items), "]", DeleteEscapes(r));
    case JObj(fields) =>
      Wrapped("{", EncodeFields(fields), "}", r);
      PlainTextIsKept("{", EncodeFields(fields) + ("}" + r));
      PassOnFields(fields, "}" + r);
      PlainTextIsKept("}", r);
      Wrapped("{", ScanFields(fields), "}", DeleteEscapes(r));
  }

  lemma {:induction false} PassOnItems(items: seq<Json>, r: string)
    ensures DeleteEscapes(EncodeItems(items) + r) == ScanItems(items) + DeleteEscapes(r)
    decreases items, 1
  {
    if |items| == 0 {
      assert EncodeItems(items) + r == r;
    } else {
      var comma, tail := Comma(|items| > 1), EncodeItems(items[1..]);
      Wrapped(Encode(items[0]), comma, tail, r);
      PassOnValue(items[0], comma + (tail + r));
      PlainTextIsKept(comma, tail + r);
      PassOnItems(items[1..], r);
      Wrapped(Scan(items[0]), comma, ScanItems(items[1..]), DeleteEscapes(r));
    }
  }

  lemma {:induction false} PassOnFields(fields: seq<Field>, r: string)
    ensures DeleteEscapes(EncodeFields(fields) + r) == ScanFields(fields) + DeleteEscapes(r)
    decreases fields, 1
  {
    if |fields| == 0 {
      assert EncodeFields(fields) + r == r;
    } else {
      var Field(k, x) := fields[0];
      var comma, tail := Comma(|fields| > 1), EncodeFields(fields[1..]);
      Chain(EncodeString(k), ": ", Encode(x), comma, tail, r);
      PassOnString(k, ": " + (Encode(x) + (comma + (tail + r))));
      PlainTextIsKept(": ", Encode(x) + (comma + (tail + r)));
      PassOnValue(x, comma + (tail + r));
      PlainTextIsKept(comma, tail + r);
      PassOnFields(fields[1..], r);
      Chain(ScanString(k), ": ", Scan(x), comma, ScanFields(fields[1..]), DeleteEscapes(r));
    }
  }

  lemma Chain(a: string, b: string, c: string, d: string, e: string, r: string)
    ensures a + b + c + d + e + r == a + (b + (c + (d + (e + r))))
  {
  }

  lemma {:induction false} ScanValueAgainstStrip(v: Json)
    ensures |Scan(v)| + 6 * Hazards(v) == |Encode(StripNuls(v))|
    ensures Hazards(v) == 0 ==> Scan(v) == Encode(StripNuls(v))
    decreases v, 0
  {
    match v
    case JStr(s) => ScanAgainstStrip(s);
    case JArr(items) => ScanItemsAgainstStrip(items);
    case JObj(fields) => ScanFieldsAgainstStrip(fields);
    case _ =>
  }

  lemma {:induction false} ScanItemsAgainstStrip(items: seq<Json>)
    ensures |ScanItems(items)| + 6 * ItemHazards(items) == |EncodeItems(StripItems(items))|
    ensures ItemHazards(items) == 0 ==> ScanItems(items) == EncodeItems(StripItems(items))
    decreases items, 1
  {
    if |items| > 0 {
      ScanValueAgainstStrip(items[0]);
      ScanItemsAgainstStrip(items[1..]);
      assert StripItems(items)[1..] == StripItems(items[1..]);
    }
  }

  lemma {:induction false} ScanFieldsAgainstStrip(fields: seq<Field>)
    ensures |ScanFields(fields)| + 6 * FieldHazards(fields) == |EncodeFields(StripFields(fields))|
    ensures FieldHazards(fields) == 0 ==> ScanFields(fields) == EncodeFields(StripFields(fields))
    decreases fields, 1
  {
    if |fields| > 0 {
      var Field(k, x) := fields[0];
      ScanAgainstStrip(k);
      ScanValueAgainstStrip(x);
      ScanFieldsAgainstStrip(fields[1..]);
      assert StripFields(fields)[1..] == StripFields(fields[1..]);
    }
  }

  // ---------- Encoded text holds no raw NUL ----------

  predicate NoNul(t: string) {
    forall i :: 0 <= i < |t| ==> t[i] != '\0'
  }

  lemma {:induction false} NoNulDeletesNothing(t: string)
    requires NoNul(t)
    ensures DeleteNuls(t) == t
  {
    if t != "" {
      NoNulDeletesNothing(t[1..]);
    }
  }

  lemma {:induction false} PassAddsNothing(t: string)
    requires NoNul(t)
    ensures NoNul(DeleteEscapes(t))
  {
    if t == "" {
    } else if NUL_ESCAPE <= t {
      PassAddsNothing(t[6..]);
    } else {
      PassAddsNothing(t[1..]);
    }
  }

  lemma EscapeHasNoNul(n: nat)
    requires n < 0x1_0000
    ensures NoNul(UnicodeEscape(n))
  {
    HexIsPlain(n);
  }

  lemma EncodedCharHasNoNul(c: char)
    ensures NoNul(EncodeChar(c))
  {
    if c as int >= 0x1_0000 {
      var n := c as int - 0x1_0000;
      EscapeHasNoNul(0xd800 + n / 0x400 % 0x400);
      EscapeHasNoNul(0xdc00 + n % 0x400);
    } else {
      EscapeHasNoNul(c as int);
    }
  }

  lemma {:induction false} EncodedBodyHasNoNul(s: string)
    ensures NoNul(EncodeBody(s))
  {
    if s != "" {
      EncodedCharHasNoNul(s[0]);
      EncodedBodyHasNoNul(s[1..]);
    }
  }

  lemma {:induction false} EncodedHasNoNul(v: Json)
    ensures NoNul(Encode(v))
    decreases v, 0
  {
    match v
    case JInt(n) => NumeralIsPlain(n);
    case JFloat(lexeme) => FloatIsPlain(lexeme);
    case JStr(s) => EncodedBodyHasNoNul(s);
    case JArr(items) => EncodedItemsHaveNoNul(items);
    case JObj(fields) => EncodedFieldsHaveNoNul(fields);
    case _ =>
  }

  lemma {:induction false} EncodedItemsHaveNoNul(items: seq<Json>)
    ensures NoNul(EncodeItems(items))
    decreases items, 1
  {
    if |items| > 0 {
      EncodedHasNoNul(items[0]);
      EncodedItemsHaveNoNul(items[1..]);
    }
  }

  lemma {:induction false} EncodedFieldsHaveNoNul(fields: seq<Field>)
    ensures NoNul(EncodeFields(fields))
    decreases fields, 1
  {
    if |fields| > 0 {
      var Field(k, x) := fields[0];
      EncodedBodyHasNoNul(k);
      EncodedHasNoNul(x);
      EncodedFieldsHaveNoNul(fields[1..]);
    }
  }

  // ---------- Main results ----------

  /** The stored text is short of the intended text by six characters per hazard. */
  lemma SafeDumpsLength(v: Json)
    ensures |JsonbSafeDumps(v)| + 6 * Hazards(v) == |Encode(StripNuls(v))|
  {
    SafeDumpsIsScan(v);
    ScanValueAgainstStrip(v);
  }

  lemma SafeDumpsIsScan(v: Json)
    ensures JsonbSafeDumps(v) == Scan(v)
  {
    assert Encode(v) + "" == Encode(v);
    PassOnValue(v, "");
    EncodedHasNoNul(v);
    PassAddsNothing(Encode(v));
    NoNulDeletesNothing(DeleteEscapes(Encode(v)));
  }

  /** Stripping the text equals encoding the stripped value exactly on hazard-free values. */
  lemma SafeDumpsCommutes(v: Json)
    ensures JsonbSafeDumps(v) == Encode(StripNuls(v)) <==> Hazards(v) == 0
  {
    SafeDumpsLength(v);
    SafeDumpsIsScan(v);
    ScanValueAgainstStrip(v);
  }

  /** A hazard that does bite: the one-string payload holding a backslash and `u0000`. */
  lemma HazardWitness()
    ensures JsonbSafeDumps(JStr(NUL_ESCAPE)) != Encode(StripNuls(JStr(NUL_ESCAPE)))
  {
    assert StringHazards(NUL_ESCAPE) >= 1;
    SafeDumpsCommutes(JStr(NUL_ESCAPE));
  }
}
