/**
 JSON text read by the grammar of RFC 8259, and what it finds in the texts the worker writes.
 The reader knows nothing of the writer; like Python's, it also takes the three non-finite floats.
 */
module JsonReader {
  import opened Text
  import opened Numerals
  import opened Json
  import opened NulStripping
  import opened Prelude

  /** What was read at the head of a text, and the text after it. */
  datatype Read<T> = Failed | Got(value: T, rest: string)

  predicate IsSpace(c: char) {
    c == ' ' || c == '\t' || c == '\n' || c == '\r'
  }

  function SkipSpace(t: string): (r: string)
    ensures |r| <= |t|
  {
    if t != "" && IsSpace(t[0]) then SkipSpace(t[1..]) else t
  }

  // ---------- Strings ----------

  function HexValue(c: char): (d: Option<nat>)
    ensures d.Some? ==> d.value < 16
  {
    if '0' <= c <= '9' then Some((c - '0') as nat)
    else if 'a' <= c <= 'f' then Some((c - 'a') as nat + 10)
    else if 'A' <= c <= 'F' then Some((c - 'A') as nat + 10)
    else None
  }

  function ReadHex(t: string): (r: Read<nat>)
    ensures r.Got? ==> r.value < 0x1_0000 && |r.rest| < |t|
  {
    if |t| < 4 then Failed
    else
      var a, b, c, d := HexValue(t[0]), HexValue(t[1]), HexValue(t[2]), HexValue(t[3]);
      if a.None? || b.None? || c.None? || d.None? then Failed
      else Got(a.value * 0x1000 + b.value * 0x100 + c.value * 0x10 + d.value, t[4..])
  }

  /** After `\u`: a character of the basic plane, or the high half of a pair and its low half. */
  function ReadUnicode(t: string): (r: Read<char>)
    ensures r.Got? ==> |r.rest| < |t|
  {
    match ReadHex(t)
    case Failed => Failed
    case Got(n, rest) =>
      if n < 0xd800 || 0xe000 <= n then Got(n as char, rest)
      else if 0xdc00 <= n || !("\\u" <= rest) then Failed
      else
        match ReadHex(rest[2..])
        case Failed => Failed
        case Got(m, after) =>
          if m < 0xdc00 || 0xe000 <= m then Failed
          else Got((0x1_0000 + (n - 0xd800) * 0x400 + (m - 0xdc00)) as char, after)
  }

  /** After a backslash. */
  function ReadEscape(t: string): (r: Read<char>)
    ensures r.Got? ==> |r.rest| < |t|
  {
    if t == "" then Failed
    else
      match t[0]
      case '"' => Got('"', t[1..])
      case '\\' => Got('\\', t[1..])
      case '/' => Got('/', t[1..])
      case 'b' => Got(8 as char, t[1..])
      case 'f' => Got(12 as char, t[1..])
      case 'n' => Got(10 as char, t[1..])
      case 'r' => Got(13 as char, t[1..])
      case 't' => Got(9 as char, t[1..])
      case 'u' => ReadUnicode(t[1..])
      case _ => Failed
  }

  /** After the opening quote, through the closing one. Control characters must be escaped. */
  function ReadBody(t: string): (r: Read<string>)
    ensures r.Got? ==> |r.rest| < |t|
    decreases |t|
  {
    if t == "" || t[0] < ' ' then Failed
    else if t[0] == '"' then Got("", t[1..])
    else
      var first := if t[0] == '\\' then ReadEscape(t[1..]) else Got(t[0], t[1..]);
      match first
      case Failed => Failed
      case Got(c, rest) =>
        match ReadBody(rest)
        case Failed => Failed
        case Got(s, after) => Got([c] + s, after)
  }

  // ---------- Values ----------

  function IntValue(s: string): int
    requires s != "" && AllDigits(s[1..]) && (s[0] == '-' || AllDigits(s))
  {
    if s[0] == '-' then 0 - DigitsValue(s[1..]) else DigitsValue(s) as int
  }

  lemma {:induction false} IntIsDigits(t: string)
    requires IntEnd(t) > 0
    ensures var s := t[..IntEnd(t)];
            s != "" && AllDigits(s[1..]) && (s[0] == '-' || AllDigits(s))
  {
    var sign := if t[0] == '-' then 1 else 0;
    DigitsOnly(t[sign..]);
    var s := t[..IntEnd(t)];
    assert forall i :: sign <= i < |s| ==> s[i] == t[sign..][i - sign];
  }

  lemma {:induction false} DigitsOnly(t: string)
    ensures forall i :: 0 <= i < DigitsEnd(t) ==> IsDigit(t[i])
  {
    if StartsWithDigit(t) {
      DigitsOnly(t[1..]);
      assert forall i :: 0 < i < DigitsEnd(t) ==> t[i] == t[1..][i - 1];
    }
  }

  function ReadNumber(t: string): (r: Read<Json>)
    ensures r.Got? ==> |r.rest| < |t|
  {
    var n := NumberEnd(t);
    if n == 0 then Failed
    else if IntEnd(t) == n then
      IntIsDigits(t);
      Got(JInt(IntValue(t[..n])), t[n..])
    else
      NumberIsNumber(t);
      Got(JFloat(t[..n]), t[n..])
  }

  function ReadValue(t: string): (r: Read<Json>)
    ensures r.Got? ==> |r.rest| < |t|
    decreases |t|, 0
  {
    if t == "" then Failed
    else if t[0] == '"' then
      match ReadBody(t[1..])
      case Failed => Failed
      case Got(s, rest) => Got(JStr(s), rest)
    else if t[0] == '[' then
      var u := SkipSpace(t[1..]);
      if u != "" && u[0] == ']' then Got(JArr([]), u[1..])
      else
        match ReadItems(u)
        case Failed => Failed
        case Got(items, rest) => Got(JArr(items), rest)
    else if t[0] == '{' then
      var u := SkipSpace(t[1..]);
      if u != "" && u[0] == '}' then Got(JObj([]), u[1..])
      else
        match ReadFields(u)
        case Failed => Failed
        case Got(fields, rest) => Got(JObj(fields), rest)
    else if "null" <= t then Got(JNull, t[4..])
    else if "true" <= t then Got(JBool(true), t[4..])
    else if "false" <= t then Got(JBool(false), t[5..])
    else if "NaN" <= t then Got(JFloat("NaN"), t[3..])
    else if "Infinity" <= t then Got(JFloat("Infinity"), t[8..])
    else if "-Infinity" <= t then Got(JFloat("-Infinity"), t[9..])
    else ReadNumber(t)
  }

  /** One or more values up to the closing bracket. */
  function ReadItems(t: string): (r: Read<seq<Json>>)
    ensures r.Got? ==> |r.rest| < |t|
    decreases |t|, 1
  {
    match ReadValue(t)
    case Failed => Failed
    case Got(item, rest) =>
      var u := SkipSpace(rest);
      if u != "" && u[0] == ']' then Got([item], u[1..])
      else if u != "" && u[0] == ',' then
        match ReadItems(SkipSpace(u[1..]))
        case Failed => Failed
        case Got(items, after) => Got([item] + items, after)
      else Failed
  }

  /** A name, a colon and a value. */
  function ReadField(t: string): (r: Read<Field>)
    ensures r.Got? ==> |r.rest| < |t|
    decreases |t|, 1
  {
    if t == "" || t[0] != '"' then Failed
    else
      match ReadBody(t[1..])
      case Failed => Failed
      case Got(key, rest) =>
        var u := SkipSpace(rest);
        if u == "" || u[0] != ':' then Failed
        else
          match ReadValue(SkipSpace(u[1..]))
          case Failed => Failed
          case Got(value, after) => Got(Field(key, value), after)
  }

  /** One or more fields up to the closing brace. */
  function ReadFields(t: string): (r: Read<seq<Field>>)
    ensures r.Got? ==> |r.rest| < |t|
    decreases |t|, 2
  {
    match ReadField(t)
    case Failed => Failed
    case Got(field, rest) =>
      var u := SkipSpace(rest);
      if u != "" && u[0] == '}' then Got([field], u[1..])
      else if u != "" && u[0] == ',' then
        match ReadFields(SkipSpace(u[1..]))
        case Failed => Failed
        case Got(fields, after) => Got([field] + fields, after)
      else Failed
  }

  /** A whole text: one value, and nothing but space around it. */
  function ReadText(t: string): Option<Json> {
    match ReadValue(SkipSpace(t))
    case Failed => None
    case Got(v, rest) => if SkipSpace(rest) == "" then Some(v) else None
  }

  // ---------- Reading back what was written ----------

  lemma {:induction false} HexDigitReads(d: nat)
    requires d < 16
    ensures HexValue(HexDigit(d)) == Some(d)
  {
  }

  lemma {:induction false} HexSum(n: nat)
    requires n < 0x1_0000
    ensures n / 0x1000 < 16
    ensures n / 0x1000 * 0x1000 + n / 0x100 % 0x10 * 0x100 + n / 0x10 % 0x10 * 0x10 + n % 0x10 == n
  {
  }

  lemma {:induction false} HexReads(n: nat, r: string)
    requires n < 0x1_0000
    ensures ReadHex(Hex4(n) + r) == Got(n, r)
  {
    HexSum(n);
    HexDigitReads(n / 0x1000);
    HexDigitReads(n / 0x100 % 0x10);
    HexDigitReads(n / 0x10 % 0x10);
    HexDigitReads(n % 0x10);
    assert (Hex4(n) + r)[4..] == r;
  }

  lemma {:induction false} UnicodeReads(n: nat, r: string)
    requires n < 0xd800 || 0xe000 <= n < 0x1_0000
    ensures ReadUnicode(Hex4(n) + r) == Got(n as char, r)
  {
    HexReads(n, r);
  }

  lemma {:induction false} PairReads(n: nat, r: string)
    requires n < 0x10_0000
    ensures ReadUnicode(Hex4(0xd800 + n / 0x400) + ("\\u" + (Hex4(0xdc00 + n % 0x400) + r)))
         == Got((0x1_0000 + n) as char, r)
  {
    var low := Hex4(0xdc00 + n % 0x400) + r;
    HexReads(0xd800 + n / 0x400, "\\u" + low);
    HexReads(0xdc00 + n % 0x400, r);
    assert ("\\u" + low)[2..] == low;
  }

  lemma {:induction false} ShortEscapeReads(c: char, r: string)
    requires |EncodeChar(c)| == 2
    ensures EncodeChar(c)[0] == '\\' && ReadEscape(EncodeChar(c)[1..] + r) == Got(c, r)
  {
    var t := EncodeChar(c)[1..] + r;
    assert t[0] == EncodeChar(c)[1] && t[1..] == r;
  }

  /** `e` spells out a character by code units that the reader takes for it. */
  lemma {:induction false} AfterU(e: string, h: string, c: char, r: string)
    requires e == "\\u" + h && ReadUnicode(h + r) == Got(c, r)
    ensures e[0] == '\\' && ReadEscape(e[1..] + r) == Got(c, r)
  {
    assert e[1..] + r == "u" + (h + r);
    assert ("u" + (h + r))[1..] == h + r;
  }

  lemma {:induction false} PlaneEscapeReads(e: string, n: nat, r: string)
    requires (n < 0xd800 || 0xe000 <= n < 0x1_0000) && e == UnicodeEscape(n)
    ensures e[0] == '\\' && ReadEscape(e[1..] + r) == Got(n as char, r)
  {
    UnicodeReads(n, r);
    AfterU(e, Hex4(n), n as char, r);
  }

  lemma {:induction false} PairShape(n: nat)
    requires n < 0x10_0000
    ensures UnicodeEscape(0xd800 + n / 0x400 % 0x400) + UnicodeEscape(0xdc00 + n % 0x400)
         == "\\u" + (Hex4(0xd800 + n / 0x400) + ("\\u" + Hex4(0xdc00 + n % 0x400)))
  {
    assert n / 0x400 % 0x400 == n / 0x400;
    Regroup("\\u", Hex4(0xd800 + n / 0x400), "\\u" + Hex4(0xdc00 + n % 0x400));
  }

  lemma {:induction false} PairEscapeReads(e: string, n: nat, r: string)
    requires n < 0x10_0000
    requires e == UnicodeEscape(0xd800 + n / 0x400 % 0x400) + UnicodeEscape(0xdc00 + n % 0x400)
    ensures e[0] == '\\' && ReadEscape(e[1..] + r) == Got((0x1_0000 + n) as char, r)
  {
    var high, low := Hex4(0xd800 + n / 0x400), Hex4(0xdc00 + n % 0x400);
    PairShape(n);
    PairReads(n, r);
    Regroup(high, "\\u" + low, r);
    Regroup("\\u", low, r);
    AfterU(e, high + ("\\u" + low), (0x1_0000 + n) as char, r);
  }

  lemma {:induction false} EscapeReads(c: char, r: string)
    requires |EncodeChar(c)| > 1
    ensures EncodeChar(c)[0] == '\\' && ReadEscape(EncodeChar(c)[1..] + r) == Got(c, r)
  {
    if |EncodeChar(c)| == 2 {
      ShortEscapeReads(c, r);
    } else if c as int < 0x1_0000 {
      PlaneEscapeReads(EncodeChar(c), c as int, r);
    } else {
      PairEscapeReads(EncodeChar(c), c as int - 0x1_0000, r);
    }
  }

  lemma {:induction false} CharReads(c: char, r: string)
    ensures var t := EncodeChar(c) + r;
            if t[0] == '\\' then ReadEscape(t[1..]) == Got(c, r)
            else t[0] >= ' ' && t[0] != '"' && t[0] == c && t[1..] == r
  {
    var e := EncodeChar(c);
    if |e| > 1 {
      EscapeReads(c, r);
    }
    assert (e + r)[1..] == e[1..] + r;
  }

  lemma {:induction false} BodyReads(s: string, r: string)
    ensures ReadBody(EncodeBody(s) + ("\"" + r)) == Got(s, r)
  {
    var t := EncodeBody(s) + ("\"" + r);
    if s == "" {
      assert t == "\"" + r;
    } else {
      var tail := EncodeBody(s[1..]) + ("\"" + r);
      assert t == EncodeChar(s[0]) + tail;
      CharReads(s[0], tail);
      BodyReads(s[1..], r);
      assert [s[0]] + s[1..] == s;
    }
  }

  /** The first character of a written value tells what it is, and is no space. */
  lemma {:induction false} ValueHead(v: Json)
    ensures Encode(v) != "" && !IsSpace(Encode(v)[0]) && Encode(v)[0] != ']'
    ensures Encode(v)[0] == '"' <==> v.JStr?
    ensures Encode(v)[0] == '[' <==> v.JArr?
    ensures Encode(v)[0] == '{' <==> v.JObj?
  {
    match v
    case JInt(n) => DecimalIsDigits(if n < 0 then -n else n);
    case JFloat(lexeme) => FloatHead(lexeme);
    case _ =>
  }

  lemma {:induction false} FloatHead(lexeme: FloatLexeme)
    ensures lexeme != "" && (IsDigit(lexeme[0]) || lexeme[0] == '-' || lexeme[0] == 'N' || lexeme[0] == 'I')
  {
  }

  lemma {:induction false} IntegerEnds(n: int)
    ensures EncodeInt(n) != "" && IntEnd(EncodeInt(n)) == NumberEnd(EncodeInt(n)) == |EncodeInt(n)|
  {
    var s := EncodeInt(n);
    var digits := Decimal(if n < 0 then -n else n);
    var sign := if n < 0 then 1 else 0;
    DecimalIsDigits(if n < 0 then -n else n);
    NoLeadingZero(if n < 0 then -n else n);
    AllDigitsEnd(digits);
    assert s[sign..] == digits && s[|s|..] == "";
  }

  lemma {:induction false} IntegerReads(n: int, r: string)
    requires Delimits(r)
    ensures ReadNumber(EncodeInt(n) + r) == Got(JInt(n), r)
  {
    var s := EncodeInt(n);
    var t := s + r;
    IntegerEnds(n);
    NumberEndBefore(s, r);
    assert t[..|s|] == s && t[|s|..] == r;
    IntIsDigits(t);
    ValueOfDecimal(if n < 0 then -n else n);
    if n < 0 {
      assert s[1..] == Decimal(-n);
    } else {
      DecimalIsDigits(n);
    }
  }

  lemma {:induction false} FloatReads(lexeme: FloatLexeme, r: string)
    requires Delimits(r) && NumberEnd(lexeme) == |lexeme|
    ensures ReadNumber(lexeme + r) == Got(JFloat(lexeme), r)
  {
    var t := lexeme + r;
    FloatHead(lexeme);
    NumberEndBefore(lexeme, r);
    assert t[..|lexeme|] == lexeme && t[|lexeme|..] == r;
  }

  /** A number starts no name. */
  lemma {:induction false} NumberIsNoName(t: string)
    requires NumberEnd(t) > 0
    ensures t[0] != '"' && t[0] != '[' && t[0] != '{'
    ensures !("null" <= t) && !("true" <= t) && !("false" <= t)
    ensures !("NaN" <= t) && !("Infinity" <= t) && !("-Infinity" <= t)
  {
    assert t[0] == '-' ==> |t| > 1 && IsDigit(t[1]);
    assert "-Infinity"[1] == 'I';
  }

  lemma {:induction false} NameReads(name: string, v: Json, r: string)
    requires (name == "null" && v == JNull) || (name == "true" && v == JBool(true))
          || (name == "false" && v == JBool(false)) || (name in {"NaN", "Infinity", "-Infinity"} && v == JFloat(name))
    ensures ReadValue(name + r) == Got(v, r)
  {
    var t := name + r;
    assert t[0] == name[0] && t[|name|..] == r && name <= t;
    assert "null"[0] == 'n' && "true"[0] == 't' && "false"[0] == 'f' && "NaN"[0] == 'N' && "Infinity"[0] == 'I';
  }

  lemma {:induction false} NumberReads(s: string, v: Json, r: string)
    requires s != "" && Delimits(r) && NumberEnd(s) == |s| && ReadNumber(s + r) == Got(v, r)
    ensures ReadValue(s + r) == Got(v, r)
  {
    NumberEndBefore(s, r);
    NumberIsNoName(s + r);
  }

  /** Every value is read back from its text, and nothing after it is touched. */
  lemma {:induction false} ValueReads(v: Json, r: string)
    requires Delimits(r)
    ensures ReadValue(Encode(v) + r) == Got(v, r)
    decreases v, 1
  {
    match v
    case JNull => NameReads("null", v, r);
    case JBool(b) => NameReads(if b then "true" else "false", v, r);
    case JInt(n) =>
      IntegerEnds(n);
      IntegerReads(n, r);
      NumberReads(EncodeInt(n), v, r);
    case JFloat(lexeme) =>
      if lexeme in {"NaN", "Infinity", "-Infinity"} {
        NameReads(lexeme, v, r);
      } else {
        FloatHead(lexeme);
        FloatReads(lexeme, r);
        NumberReads(lexeme, v, r);
      }
    case JStr(s) =>
      Wrapped("\"", EncodeBody(s), "\"", r);
      BodyReads(s, r);
      assert ("\"" + (EncodeBody(s) + ("\"" + r)))[1..] == EncodeBody(s) + ("\"" + r);
    case JArr(items) => ArrayReads(items, r);
    case JObj(fields) => ObjectReads(fields, r);
  }

  lemma {:induction false} ArrayReads(items: seq<Json>, r: string)
    requires Delimits(r)
    ensures ReadValue(Encode(JArr(items)) + r) == Got(JArr(items), r)
    decreases items, 3
  {
    var inner := EncodeItems(items) + ("]" + r);
    Wrapped("[", EncodeItems(items), "]", r);
    assert ("[" + inner)[1..] == inner;
    if |items| == 0 {
      assert inner == "]" + r;
    } else {
      ItemsHead(items, "]" + r);
      ItemsRead(items, r);
    }
  }

  lemma {:induction false} ItemsHead(items: seq<Json>, r: string)
    requires |items| > 0
    ensures var t := EncodeItems(items) + r;
            t != "" && !IsSpace(t[0]) && t[0] != ']'
  {
    ValueHead(items[0]);
    assert EncodeItems(items)[0] == Encode(items[0])[0];
  }

  lemma {:induction false} ItemsRead(items: seq<Json>, r: string)
    requires |items| > 0
    ensures ReadItems(EncodeItems(items) + ("]" + r)) == Got(items, r)
    decreases items, 2
  {
    var t := EncodeItems(items) + ("]" + r);
    if |items| == 1 {
      assert EncodeItems(items) == Encode(items[0]);
      ValueReads(items[0], "]" + r);
      assert items == [items[0]];
    } else {
      var tail := EncodeItems(items[1..]) + ("]" + r);
      Wrapped(Encode(items[0]), ", ", EncodeItems(items[1..]), "]" + r);
      ValueReads(items[0], ", " + tail);
      ItemsHead(items[1..], "]" + r);
      SpaceThen(tail);
      ItemsRead(items[1..], r);
      assert [items[0]] + items[1..] == items;
    }
  }

  lemma {:induction false} ObjectReads(fields: seq<Field>, r: string)
    requires Delimits(r)
    ensures ReadValue(Encode(JObj(fields)) + r) == Got(JObj(fields), r)
    decreases fields, 3
  {
    var inner := EncodeFields(fields) + ("}" + r);
    Wrapped("{", EncodeFields(fields), "}", r);
    assert ("{" + inner)[1..] == inner;
    if |fields| == 0 {
      assert inner == "}" + r;
    } else {
      FieldsHead(fields, "}" + r);
      FieldsRead(fields, r);
    }
  }

  lemma {:induction false} FieldsHead(fields: seq<Field>, r: string)
    requires |fields| > 0
    ensures var t := EncodeFields(fields) + r;
            t != "" && !IsSpace(t[0]) && t[0] == '"'
  {
    assert EncodeFields(fields)[0] == EncodeString(fields[0].key)[0];
  }

  lemma {:induction false} FieldReads(field: Field, r: string)
    requires Delimits(r)
    ensures ReadField(EncodeString(field.key) + (": " + (Encode(field.value) + r))) == Got(field, r)
    decreases field, 2
  {
    var Field(k, x) := field;
    var value := Encode(x) + r;
    Wrapped("\"", EncodeBody(k), "\"", ": " + value);
    var t := EncodeString(k) + (": " + value);
    assert t[1..] == EncodeBody(k) + ("\"" + (": " + value));
    BodyReads(k, ": " + value);
    ValueHead(x);
    SpaceThen(value);
    ValueReads(x, r);
  }

  lemma {:induction false} SpaceThen(t: string)
    requires t != "" && !IsSpace(t[0])
    ensures SkipSpace(t) == t
    ensures SkipSpace(": " + t) == ": " + t && (": " + t)[0] == ':' && SkipSpace((": " + t)[1..]) == t
    ensures SkipSpace(", " + t) == ", " + t && (", " + t)[0] == ',' && SkipSpace((", " + t)[1..]) == t
  {
    assert (": " + t)[1..] == " " + t && (", " + t)[1..] == " " + t && (" " + t)[1..] == t;
  }

  lemma {:induction false} OneField(field: Field, r: string)
    ensures EncodeFields([field]) + r == EncodeString(field.key) + (": " + (Encode(field.value) + r))
  {
    var Field(k, x) := field;
    assert EncodeFields([field]) == EncodeString(k) + ": " + Encode(x) + "" + "";
    Chain(EncodeString(k), ": ", Encode(x), "", "", r);
  }

  lemma {:induction false} MoreFields(fields: seq<Field>, r: string)
    requires |fields| > 1
    ensures EncodeFields(fields) + r
         == EncodeString(fields[0].key) + (": " + (Encode(fields[0].value) + (", " + (EncodeFields(fields[1..]) + r))))
  {
    var Field(k, x) := fields[0];
    Chain(EncodeString(k), ": ", Encode(x), ", ", EncodeFields(fields[1..]), r);
  }

  lemma {:induction false} OnlyField(t: string, field: Field, r: string)
    requires ReadField(t) == Got(field, "}" + r)
    ensures ReadFields(t) == Got([field], r)
  {
  }

  lemma {:induction false} NextField(t: string, field: Field, tail: string, more: seq<Field>, r: string)
    requires ReadField(t) == Got(field, ", " + tail) && tail != "" && !IsSpace(tail[0])
    requires ReadFields(tail) == Got(more, r)
    ensures ReadFields(t) == Got([field] + more, r)
  {
    SpaceThen(tail);
  }

  lemma {:induction false} FieldsRead(fields: seq<Field>, r: string)
    requires |fields| > 0
    ensures ReadFields(EncodeFields(fields) + ("}" + r)) == Got(fields, r)
    decreases fields, 2
  {
    if |fields| == 1 {
      assert fields == [fields[0]];
      OneField(fields[0], "}" + r);
      FieldReads(fields[0], "}" + r);
      OnlyField(EncodeFields(fields) + ("}" + r), fields[0], r);
    } else {
      var tail := EncodeFields(fields[1..]) + ("}" + r);
      MoreFields(fields, "}" + r);
      FieldReads(fields[0], ", " + tail);
      FieldsHead(fields[1..], "}" + r);
      FieldsRead(fields[1..], r);
      NextField(EncodeFields(fields) + ("}" + r), fields[0], tail, fields[1..], r);
      assert [fields[0]] + fields[1..] == fields;
    }
  }

  // ---------- Main results ----------

  /** The text that `json.dumps` writes says exactly the value it was given. */
  lemma TextSaysTheValue(v: Json)
    ensures ReadText(Encode(v)) == Some(v)
  {
    ValueHead(v);
    ValueReads(v, "");
    assert Encode(v) + "" == Encode(v);
  }

  /** What the worker hands to the database says the payload without its NULs, when there is no hazard in it. */
  lemma StoredTextSaysTheStripped(v: Json)
    requires Hazards(v) == 0
    ensures ReadText(JsonbSafeDumps(v)) == Some(StripNuls(v))
  {
    SafeDumpsCommutes(v);
    TextSaysTheValue(StripNuls(v));
  }
}
