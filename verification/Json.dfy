/** Compact JSON as `json.dumps(..., ensure_ascii=False)` writes it, and a reader for it (RFC 8259). Characters
    are Unicode scalar values; numbers are natural, since the records hold page numbers only. */
module Json {
  import opened Results

  datatype Json = Text(text: string) | Number(number: nat) | True | List(items: seq<Json>) | Record(fields: seq<Field>)

  datatype Field = Field(key: string, value: Json)

  // ----- writing

  const HEX: string := "0123456789abcdef"

  /** A character inside a string literal (section 7). */
  function EscapeChar(c: char): string {
    if c == '"' then "\\\""
    else if c == '\\' then "\\\\"
    else if c == '\n' then "\\n"
    else if c == '\r' then "\\r"
    else if c == '\t' then "\\t"
    else if c == 8 as char then "\\b"
    else if c == 12 as char then "\\f"
    else if c < ' ' then "\\u00" + [HEX[c as int / 16], HEX[c as int % 16]]
    else [c]
  }

  function Escaped(s: string): string {
    if s == "" then "" else EscapeChar(s[0]) + Escaped(s[1..])
  }

  function Digits(n: nat): (digits: string)
    ensures digits != "" && forall k :: 0 <= k < |digits| ==> IsDigit(digits[k])
  {
    if n < 10 then [HEX[n]] else Digits(n / 10) + [HEX[n % 10]]
  }

  predicate IsDigit(c: char) { '0' <= c <= '9' }

  function Print(v: Json): string {
    match v
    case Text(s) => "\"" + Escaped(s) + "\""
    case Number(n) => Digits(n)
    case True => "true"
    case List(items) => "[" + PrintItems(items) + "]"
    case Record(fields) => "{" + PrintFields(fields) + "}"
  }

  function PrintItems(items: seq<Json>): string {
    if items == [] then "" else Print(items[0]) + if |items| == 1 then "" else "," + PrintItems(items[1..])
  }

  function PrintFields(fields: seq<Field>): string {
    if fields == [] then ""
    else
      "\"" + Escaped(fields[0].key) + "\":"
      + (Print(fields[0].value) + if |fields| == 1 then "" else "," + PrintFields(fields[1..]))
  }

  // ----- the markup characters

  function Replace(text: string, c: char, escape: string): string {
    if text == "" then "" else (if text[0] == c then escape else [text[0]]) + Replace(text[1..], c, escape)
  }

  const AMP: string := "\\u0026"
  const LESS: string := "\\u003c"
  const GREATER: string := "\\u003e"

  /** Ampersand and angle brackets as escapes, replaced one after the other. */
  function Guarded(text: string): string {
    Replace(Replace(Replace(text, '&', AMP), '<', LESS), '>', GREATER)
  }

  lemma {:induction false} ReplaceConcat(a: string, b: string, c: char, escape: string)
    ensures Replace(a + b, c, escape) == Replace(a, c, escape) + Replace(b, c, escape)
  {
    if a == "" {
      assert a + b == b;
    } else {
      ReplaceConcat(a[1..], b, c, escape);
      assert (a + b)[1..] == a[1..] + b;
      Associate(if a[0] == c then escape else [a[0]], Replace(a[1..], c, escape), Replace(b, c, escape));
    }
  }

  lemma GuardedConcat(a: string, b: string)
    ensures Guarded(a + b) == Guarded(a) + Guarded(b)
  {
    ReplaceConcat(a, b, '&', AMP);
    ReplaceConcat(Replace(a, '&', AMP), Replace(b, '&', AMP), '<', LESS);
    ReplaceConcat(Replace(Replace(a, '&', AMP), '<', LESS), Replace(Replace(b, '&', AMP), '<', LESS), '>', GREATER);
  }

  predicate Plain(text: string) {
    '&' !in text && '<' !in text && '>' !in text
  }

  lemma {:induction false} ReplaceAbsent(text: string, c: char, escape: string)
    requires c !in text
    ensures Replace(text, c, escape) == text
  {
    if text != "" {
      ReplaceAbsent(text[1..], c, escape);
    }
  }

  lemma GuardedPlain(text: string)
    requires Plain(text)
    ensures Guarded(text) == text
  {
    ReplaceAbsent(text, '&', AMP);
    ReplaceAbsent(text, '<', LESS);
    ReplaceAbsent(text, '>', GREATER);
  }

  function GuardChar(c: char): string {
    if c == '&' then AMP else if c == '<' then LESS else if c == '>' then GREATER else [c]
  }

  lemma ReplaceOne(c: char, mark: char, escape: string)
    ensures Replace([c], mark, escape) == if c == mark then escape else [c]
  {
    assert Replace([], mark, escape) == [];
  }

  lemma GuardedChar(c: char)
    ensures Guarded([c]) == GuardChar(c)
  {
    ReplaceOne(c, '&', AMP);
    ReplaceOne(c, '<', LESS);
    ReplaceOne(c, '>', GREATER);
    ReplaceAbsent(AMP, '<', LESS);
    ReplaceAbsent(AMP, '>', GREATER);
    ReplaceAbsent(LESS, '>', GREATER);
  }

  // ----- reading

  function HexValue(c: char): Option<nat> {
    if '0' <= c <= '9' then Some(c as int - '0' as int)
    else if 'a' <= c <= 'f' then Some(c as int - 'a' as int + 10)
    else if 'A' <= c <= 'F' then Some(c as int - 'A' as int + 10)
    else None
  }

  /** The character of four hexadecimal digits; surrogates are refused. */
  function HexChar(s: string): Option<char>
    requires |s| == 4
  {
    var a, b, c, d := HexValue(s[0]), HexValue(s[1]), HexValue(s[2]), HexValue(s[3]);
    if a.None? || b.None? || c.None? || d.None? then None
    else
      var code := ((a.value * 16 + b.value) * 16 + c.value) * 16 + d.value;
      if code < 0xD800 || 0xE000 <= code < 0x10000 then Some(code as char) else None
  }

  /** One character of a string literal, and what follows it. */
  function ReadChar(s: string): (r: Option<(char, string)>)
    ensures r.Some? ==> |r.value.1| < |s|
  {
    if s == "" || s[0] == '"' || s[0] < ' ' then None
    else if s[0] != '\\' then Some((s[0], s[1..]))
    else if |s| < 2 then None
    else if s[1] == '"' || s[1] == '\\' || s[1] == '/' then Some((s[1], s[2..]))
    else if s[1] == 'n' then Some(('\n', s[2..]))
    else if s[1] == 'r' then Some(('\r', s[2..]))
    else if s[1] == 't' then Some(('\t', s[2..]))
    else if s[1] == 'b' then Some((8 as char, s[2..]))
    else if s[1] == 'f' then Some((12 as char, s[2..]))
    else if s[1] == 'u' && |s| >= 6 && HexChar(s[2..6]).Some? then Some((HexChar(s[2..6]).value, s[6..]))
    else None
  }

  /** The rest of a string literal after its opening quote. */
  function ReadText(s: string): (r: Option<(string, string)>)
    ensures r.Some? ==> |r.value.1| < |s|
    decreases |s|
  {
    if s != "" && s[0] == '"' then Some(("", s[1..]))
    else
      match ReadChar(s)
      case None => None
      case Some((c, tail)) =>
        match ReadText(tail)
        case None => None
        case Some((text, rest)) => Some(([c] + text, rest))
  }

  function ReadDigits(s: string, n: nat): (r: (nat, string))
    ensures |r.1| <= |s|
    decreases |s|
  {
    if s != "" && IsDigit(s[0]) then ReadDigits(s[1..], n * 10 + (s[0] as int - '0' as int)) else (n, s)
  }

  function Parse(s: string): (r: Option<(Json, string)>)
    ensures r.Some? ==> |r.value.1| < |s|
    decreases |s|, 0
  {
    if s == "" then None
    else if s[0] == '"' then
      match ReadText(s[1..])
      case None => None
      case Some((text, rest)) => Some((Text(text), rest))
    else if s[0] == '0' then Some((Number(0), s[1..]))
    else if IsDigit(s[0]) then
      var (n, rest) := ReadDigits(s[1..], s[0] as int - '0' as int);
      Some((Number(n), rest))
    else if s[0] == 't' && |s| >= 4 && s[1] == 'r' && s[2] == 'u' && s[3] == 'e' then Some((True, s[4..]))
    else if s[0] == '[' && |s| >= 2 && s[1] == ']' then Some((List([]), s[2..]))
    else if s[0] == '{' && |s| >= 2 && s[1] == '}' then Some((Record([]), s[2..]))
    else if s[0] == '[' then
      match ParseItems(s[1..])
      case None => None
      case Some((items, rest)) => Some((List(items), rest))
    else if s[0] == '{' then
      match ParseFields(s[1..])
      case None => None
      case Some((fields, rest)) => Some((Record(fields), rest))
    else None
  }

  /** One or more values up to the closing bracket. */
  function ParseItems(s: string): (r: Option<(seq<Json>, string)>)
    ensures r.Some? ==> |r.value.1| < |s|
    decreases |s|, 1
  {
    match Parse(s)
    case None => None
    case Some((v, tail)) =>
      if tail == "" then None
      else if tail[0] == ']' then Some(([v], tail[1..]))
      else if tail[0] == ',' then
        match ParseItems(tail[1..])
        case None => None
        case Some((items, rest)) => Some(([v] + items, rest))
      else None
  }

  /** One or more fields up to the closing brace. */
  function ParseFields(s: string): (r: Option<(seq<Field>, string)>)
    ensures r.Some? ==> |r.value.1| < |s|
    decreases |s|, 1
  {
    if s == "" || s[0] != '"' then None
    else
      match ReadText(s[1..])
      case None => None
      case Some((key, afterKey)) =>
        if afterKey == "" || afterKey[0] != ':' then None
        else
          match Parse(afterKey[1..])
          case None => None
          case Some((v, tail)) =>
            if tail == "" then None
            else if tail[0] == '}' then Some(([Field(key, v)], tail[1..]))
            else if tail[0] == ',' then
              match ParseFields(tail[1..])
              case None => None
              case Some((fields, rest)) => Some(([Field(key, v)] + fields, rest))
            else None
  }

  // ----- reading undoes writing and guarding

  /** A character as it appears in a guarded string literal. */
  function Secured(c: char): string {
    if c == '&' || c == '<' || c == '>' then GuardChar(c) else EscapeChar(c)
  }

  lemma GuardedEscape(c: char)
    ensures Guarded(EscapeChar(c)) == Secured(c)
  {
    EscapePlain(c);
    if c == '&' || c == '<' || c == '>' {
      GuardedChar(c);
    } else {
      GuardedPlain(EscapeChar(c));
    }
  }

  lemma HexDigit(k: nat)
    requires k < 16
    ensures HexValue(HEX[k]) == Some(k) && Plain([HEX[k]])
  {
  }

  lemma EscapePlain(c: char)
    ensures Plain(EscapeChar(c)) <==> c != '&' && c != '<' && c != '>'
  {
    if c < ' ' {
      HexDigit(c as int / 16);
      HexDigit(c as int % 16);
    }
  }

  /** Every guarded character reads back as itself. */
  lemma ReadSecured(c: char, tail: string)
    ensures ReadChar(Secured(c) + tail) == Some((c, tail))
  {
    var s := Secured(c) + tail;
    if |Secured(c)| == 6 {
      assert s[2..6] == Secured(c)[2..] && s[6..] == tail;
      if c < ' ' {
        HexDigit(c as int / 16);
        HexDigit(c as int % 16);
      }
    } else if |Secured(c)| == 2 {
      assert s[2..] == tail;
    } else {
      assert s[1..] == tail;
    }
  }

  function SecuredText(s: string): string {
    if s == "" then "" else Secured(s[0]) + SecuredText(s[1..])
  }

  /** What a value looks like once guarded. */
  function Wire(v: Json): string {
    match v
    case Text(s) => "\"" + SecuredText(s) + "\""
    case Number(n) => Digits(n)
    case True => "true"
    case List(items) => "[" + WireItems(items) + "]"
    case Record(fields) => "{" + WireFields(fields) + "}"
  }

  function WireItems(items: seq<Json>): string {
    if items == [] then "" else Wire(items[0]) + if |items| == 1 then "" else "," + WireItems(items[1..])
  }

  function WireFields(fields: seq<Field>): string {
    if fields == [] then ""
    else
      "\"" + SecuredText(fields[0].key) + "\":"
      + (Wire(fields[0].value) + if |fields| == 1 then "" else "," + WireFields(fields[1..]))
  }

  lemma GuardedAround(open: string, middle: string, close: string)
    requires Plain(open) && Plain(close)
    ensures Guarded(open + middle + close) == open + Guarded(middle) + close
  {
    GuardedConcat(open + middle, close);
    GuardedConcat(open, middle);
    GuardedPlain(open);
    GuardedPlain(close);
  }

  lemma GuardedAfter(first: string, mark: string, second: string)
    requires Plain(mark)
    ensures Guarded(first + (mark + second)) == Guarded(first) + (mark + Guarded(second))
  {
    GuardedConcat(first, mark + second);
    GuardedConcat(mark, second);
    GuardedPlain(mark);
  }

  lemma {:induction false} GuardedEscaped(text: string)
    ensures Guarded(Escaped(text)) == SecuredText(text)
  {
    if text == "" {
      GuardedPlain("");
    } else {
      GuardedEscaped(text[1..]);
      GuardedConcat(EscapeChar(text[0]), Escaped(text[1..]));
      EscapePlain(text[0]);
      GuardedEscape(text[0]);
    }
  }

  lemma {:induction false} DigitsPlain(n: nat)
    ensures Plain(Digits(n))
  {
    if n >= 10 {
      DigitsPlain(n / 10);
    }
  }

  lemma {:induction false} GuardedPrint(v: Json)
    ensures Guarded(Print(v)) == Wire(v)
    decreases v
  {
    match v
    case Text(text) =>
      GuardedAround("\"", Escaped(text), "\"");
      GuardedEscaped(text);
    case Number(n) =>
      DigitsPlain(n);
      GuardedPlain(Digits(n));
    case True => GuardedPlain("true");
    case List(items) =>
      GuardedAround("[", PrintItems(items), "]");
      GuardedItems(items);
    case Record(fields) =>
      GuardedAround("{", PrintFields(fields), "}");
      GuardedFields(fields);
  }

  lemma {:induction false} GuardedItems(items: seq<Json>)
    ensures Guarded(PrintItems(items)) == WireItems(items)
    decreases items
  {
    if items == [] {
      GuardedPlain("");
    } else {
      GuardedPrint(items[0]);
      if |items| == 1 {
        assert PrintItems(items) == Print(items[0]) && WireItems(items) == Wire(items[0]);
      } else {
        GuardedItems(items[1..]);
        GuardedAfter(Print(items[0]), ",", PrintItems(items[1..]));
      }
    }
  }

  lemma {:induction false} GuardedFields(fields: seq<Field>)
    ensures Guarded(PrintFields(fields)) == WireFields(fields)
    decreases fields
  {
    if fields == [] {
      GuardedPlain("");
    } else {
      var name := "\"" + Escaped(fields[0].key) + "\":";
      GuardedAround("\"", Escaped(fields[0].key), "\":");
      GuardedEscaped(fields[0].key);
      GuardedPrint(fields[0].value);
      if |fields| == 1 {
        assert Print(fields[0].value) + "" == Print(fields[0].value) &&
          Wire(fields[0].value) + "" == Wire(fields[0].value);
        GuardedConcat(name, Print(fields[0].value));
      } else {
        GuardedFields(fields[1..]);
        GuardedAfter(Print(fields[0].value), ",", PrintFields(fields[1..]));
        GuardedConcat(name, Print(fields[0].value) + ("," + PrintFields(fields[1..])));
      }
    }
  }

  lemma {:induction false} TextRound(text: string, rest: string)
    ensures ReadText(SecuredText(text) + ("\"" + rest)) == Some((text, rest))
  {
    if text == "" {
      assert "" + ("\"" + rest) == "\"" + rest;
    } else {
      var more := SecuredText(text[1..]) + ("\"" + rest);
      TextRound(text[1..], rest);
      SecuredShape(text, "\"" + rest);
      ReadSecured(text[0], more);
      ReadOn(text[0], Secured(text[0]) + more, more, text[1..], rest);
      assert text == [text[0]] + text[1..];
    }
  }

  lemma SecuredShape(text: string, rest: string)
    requires text != ""
    ensures SecuredText(text) + rest == Secured(text[0]) + (SecuredText(text[1..]) + rest)
  {
    Associate(Secured(text[0]), SecuredText(text[1..]), rest);
  }

  lemma Associate(a: string, b: string, c: string)
    ensures (a + b) + c == a + (b + c)
  {
  }

  lemma ReadOn(c: char, s: string, tail: string, text: string, rest: string)
    requires ReadChar(s) == Some((c, tail)) && ReadText(tail) == Some((text, rest))
    ensures ReadText(s) == Some(([c] + text, rest))
  {
  }

  lemma DigitValue(k: nat, tail: string, n: nat)
    requires k < 10
    ensures ReadDigits([HEX[k]] + tail, n) == ReadDigits(tail, n * 10 + k)
  {
    assert ([HEX[k]] + tail)[1..] == tail;
  }

  lemma {:induction false} DigitsRound(n: nat, tail: string)
    ensures ReadDigits(Digits(n) + tail, 0) == ReadDigits(tail, n)
  {
    if n >= 10 {
      var last := [HEX[n % 10]] + tail;
      assert Digits(n) + tail == Digits(n / 10) + last;
      DigitsRound(n / 10, last);
      DigitValue(n % 10, tail, n / 10);
    } else {
      DigitValue(n, tail, 0);
    }
  }

  /** What may follow a number. */
  predicate Ends(rest: string) {
    rest == "" || !IsDigit(rest[0])
  }

  lemma TextReads(inner: string, text: string, rest: string)
    requires ReadText(inner) == Some((text, rest))
    ensures Parse("\"" + inner) == Some((Text(text), rest))
  {
    assert ("\"" + inner)[1..] == inner;
  }

  lemma NumberReads(digits: string, n: nat, rest: string)
    requires digits != "" && IsDigit(digits[0]) && digits[0] != '0' && ReadDigits(digits + rest, 0) == (n, rest)
    ensures Parse(digits + rest) == Some((Number(n), rest))
  {
  }

  lemma ZeroReads(rest: string)
    ensures Parse(Digits(0) + rest) == Some((Number(0), rest))
  {
    assert (Digits(0) + rest)[1..] == rest;
  }

  /** Numbers are written without leading zeros, as the grammar demands. */
  lemma {:induction false} NoLeadingZero(n: nat)
    requires n > 0
    ensures Digits(n)[0] != '0'
  {
    if n >= 10 {
      NoLeadingZero(n / 10);
    }
  }

  lemma TrueReads(rest: string)
    ensures Parse("true" + rest) == Some((True, rest))
  {
    assert ("true" + rest)[4..] == rest;
  }

  lemma ListReads(inner: string, items: seq<Json>, rest: string)
    requires inner != "" && inner[0] != ']' && ParseItems(inner) == Some((items, rest))
    ensures Parse("[" + inner) == Some((List(items), rest))
  {
    assert ("[" + inner)[1..] == inner && ("[" + inner)[0] == '[';
  }

  lemma RecordReads(inner: string, fields: seq<Field>, rest: string)
    requires inner != "" && inner[0] != '}' && ParseFields(inner) == Some((fields, rest))
    ensures Parse("{" + inner) == Some((Record(fields), rest))
  {
    assert ("{" + inner)[1..] == inner && ("{" + inner)[0] == '{';
  }

  lemma EmptyReads(rest: string)
    ensures Parse("[]" + rest) == Some((List([]), rest)) && Parse("{}" + rest) == Some((Record([]), rest))
  {
    assert ("[]" + rest)[2..] == rest && ("{}" + rest)[2..] == rest;
  }

  lemma LastItem(s: string, v: Json, rest: string)
    requires Parse(s) == Some((v, "]" + rest))
    ensures ParseItems(s) == Some(([v], rest))
  {
    assert ("]" + rest)[1..] == rest;
  }

  lemma MoreItems(s: string, v: Json, next: string, items: seq<Json>, rest: string)
    requires Parse(s) == Some((v, "," + next)) && ParseItems(next) == Some((items, rest))
    ensures ParseItems(s) == Some(([v] + items, rest))
  {
    assert ("," + next)[1..] == next;
  }

  lemma LastField(inner: string, key: string, value: string, v: Json, rest: string)
    requires ReadText(inner) == Some((key, ":" + value)) && Parse(value) == Some((v, "}" + rest))
    ensures ParseFields("\"" + inner) == Some(([Field(key, v)], rest))
  {
    assert ("\"" + inner)[1..] == inner && (":" + value)[1..] == value && ("}" + rest)[1..] == rest;
  }

  lemma MoreFields(inner: string, key: string, value: string, v: Json, next: string, fields: seq<Field>, rest: string)
    requires ReadText(inner) == Some((key, ":" + value)) && Parse(value) == Some((v, "," + next))
    requires ParseFields(next) == Some((fields, rest))
    ensures ParseFields("\"" + inner) == Some(([Field(key, v)] + fields, rest))
  {
    assert ("\"" + inner)[1..] == inner && (":" + value)[1..] == value && ("," + next)[1..] == next;
  }

  lemma WireStart(v: Json)
    ensures Wire(v) != "" && Wire(v)[0] != ']'
  {
  }

  lemma Bracketed(open: string, inner: string, close: string, rest: string)
    ensures (open + inner + close) + rest == open + (inner + (close + rest))
  {
  }

  /** What follows the first value of a list. */
  function AfterItem(items: seq<Json>, rest: string): (tail: string)
    requires items != []
  {
    if |items| == 1 then "]" + rest else "," + (WireItems(items[1..]) + ("]" + rest))
  }

  lemma ItemsShape(items: seq<Json>, rest: string)
    requires items != []
    ensures WireItems(items) + ("]" + rest) == Wire(items[0]) + AfterItem(items, rest)
  {
    var tail := if |items| == 1 then "" else "," + WireItems(items[1..]);
    assert WireItems(items) == Wire(items[0]) + tail;
    Associate(Wire(items[0]), tail, "]" + rest);
    if |items| == 1 {
      Associate("", "]", rest);
    } else {
      Associate(",", WireItems(items[1..]), "]" + rest);
    }
  }

  /** What follows the first value of a record. */
  function AfterField(fields: seq<Field>, rest: string): (tail: string)
    requires fields != []
  {
    if |fields| == 1 then "}" + rest else "," + (WireFields(fields[1..]) + ("}" + rest))
  }

  lemma FieldsShape(fields: seq<Field>, rest: string)
    requires fields != []
    ensures WireFields(fields) + ("}" + rest) ==
      "\"" + (SecuredText(fields[0].key) + ("\"" + (":" + (Wire(fields[0].value) + AfterField(fields, rest)))))
  {
    var key, value := SecuredText(fields[0].key), Wire(fields[0].value);
    var tail := if |fields| == 1 then "" else "," + WireFields(fields[1..]);
    var name := "\"" + key + "\":";
    assert WireFields(fields) == name + (value + tail);
    Associate(name, value + tail, "}" + rest);
    Associate(value, tail, "}" + rest);
    AfterFieldShape(fields, rest);
    NameShape(key, value + AfterField(fields, rest));
  }

  lemma AfterFieldShape(fields: seq<Field>, rest: string)
    requires fields != []
    ensures (if |fields| == 1 then "" else "," + WireFields(fields[1..])) + ("}" + rest) == AfterField(fields, rest)
  {
    if |fields| == 1 {
      Associate("", "}", rest);
    } else {
      Associate(",", WireFields(fields[1..]), "}" + rest);
    }
  }

  lemma NameShape(key: string, after: string)
    ensures ("\"" + key + "\":") + after == "\"" + (key + ("\"" + (":" + after)))
  {
  }

  lemma NumberRound(n: nat, rest: string)
    requires Ends(rest)
    ensures Parse(Digits(n) + rest) == Some((Number(n), rest))
  {
    if n == 0 {
      ZeroReads(rest);
    } else {
      NoLeadingZero(n);
      DigitsRound(n, rest);
      NumberReads(Digits(n), n, rest);
    }
  }

  lemma {:induction false} WireRound(v: Json, rest: string)
    requires Ends(rest)
    ensures Parse(Wire(v) + rest) == Some((v, rest))
    decreases v
  {
    match v
    case Text(text) => TextCase(text, rest);
    case Number(n) =>
      NumberRound(n, rest);
    case True => TrueReads(rest);
    case List(items) =>
      if items != [] {
        ItemsRound(items, rest);
      }
      ListCase(items, rest);
    case Record(fields) =>
      if fields != [] {
        FieldsRound(fields, rest);
      }
      RecordCase(fields, rest);
  }

  lemma TextCase(text: string, rest: string)
    ensures Parse(Wire(Text(text)) + rest) == Some((Text(text), rest))
  {
    TextRound(text, rest);
    Bracketed("\"", SecuredText(text), "\"", rest);
    TextReads(SecuredText(text) + ("\"" + rest), text, rest);
  }

  lemma ListCase(items: seq<Json>, rest: string)
    requires items != [] ==> ParseItems(WireItems(items) + ("]" + rest)) == Some((items, rest))
    ensures Parse(Wire(List(items)) + rest) == Some((List(items), rest))
  {
    if items == [] {
      EmptyReads(rest);
      assert Wire(List(items)) == "[]";
    } else {
      WireStart(items[0]);
      Bracketed("[", WireItems(items), "]", rest);
      ListReads(WireItems(items) + ("]" + rest), items, rest);
    }
  }

  lemma RecordCase(fields: seq<Field>, rest: string)
    requires fields != [] ==> ParseFields(WireFields(fields) + ("}" + rest)) == Some((fields, rest))
    ensures Parse(Wire(Record(fields)) + rest) == Some((Record(fields), rest))
  {
    if fields == [] {
      EmptyReads(rest);
      assert Wire(Record(fields)) == "{}";
    } else {
      Bracketed("{", WireFields(fields), "}", rest);
      FieldsShape(fields, rest);
      RecordReads(WireFields(fields) + ("}" + rest), fields, rest);
    }
  }

  lemma OneItem(items: seq<Json>, rest: string)
    requires |items| == 1 && Parse(Wire(items[0]) + ("]" + rest)) == Some((items[0], "]" + rest))
    ensures ParseItems(WireItems(items) + ("]" + rest)) == Some((items, rest))
  {
    ItemsShape(items, rest);
    LastItem(Wire(items[0]) + ("]" + rest), items[0], rest);
    assert items == [items[0]];
  }

  lemma ManyItems(items: seq<Json>, rest: string, next: string)
    requires |items| > 1 && next == WireItems(items[1..]) + ("]" + rest)
    requires Parse(Wire(items[0]) + ("," + next)) == Some((items[0], "," + next))
    requires ParseItems(next) == Some((items[1..], rest))
    ensures ParseItems(WireItems(items) + ("]" + rest)) == Some((items, rest))
  {
    ItemsShape(items, rest);
    MoreItems(Wire(items[0]) + ("," + next), items[0], next, items[1..], rest);
    assert items == [items[0]] + items[1..];
  }

  lemma {:induction false} ItemsRound(items: seq<Json>, rest: string)
    requires items != []
    ensures ParseItems(WireItems(items) + ("]" + rest)) == Some((items, rest))
    decreases items
  {
    if |items| == 1 {
      WireRound(items[0], "]" + rest);
      OneItem(items, rest);
    } else {
      var next := WireItems(items[1..]) + ("]" + rest);
      WireRound(items[0], "," + next);
      ItemsRound(items[1..], rest);
      ManyItems(items, rest, next);
    }
  }

  lemma OneField(fields: seq<Field>, rest: string)
    requires |fields| == 1 && Parse(Wire(fields[0].value) + ("}" + rest)) == Some((fields[0].value, "}" + rest))
    ensures ParseFields(WireFields(fields) + ("}" + rest)) == Some((fields, rest))
  {
    var key, value := fields[0].key, Wire(fields[0].value) + ("}" + rest);
    FieldsShape(fields, rest);
    TextRound(key, ":" + value);
    LastField(SecuredText(key) + ("\"" + (":" + value)), key, value, fields[0].value, rest);
    assert fields == [fields[0]];
  }

  lemma ManyFields(fields: seq<Field>, rest: string, next: string)
    requires |fields| > 1 && next == WireFields(fields[1..]) + ("}" + rest)
    requires Parse(Wire(fields[0].value) + ("," + next)) == Some((fields[0].value, "," + next))
    requires ParseFields(next) == Some((fields[1..], rest))
    ensures ParseFields(WireFields(fields) + ("}" + rest)) == Some((fields, rest))
  {
    var key, value := fields[0].key, Wire(fields[0].value) + ("," + next);
    FieldsShape(fields, rest);
    TextRound(key, ":" + value);
    MoreFields(SecuredText(key) + ("\"" + (":" + value)), key, value, fields[0].value, next, fields[1..], rest);
    assert fields == [fields[0]] + fields[1..];
  }

  lemma {:induction false} FieldsRound(fields: seq<Field>, rest: string)
    requires fields != []
    ensures ParseFields(WireFields(fields) + ("}" + rest)) == Some((fields, rest))
    decreases fields
  {
    if |fields| == 1 {
      WireRound(fields[0].value, "}" + rest);
      OneField(fields, rest);
    } else {
      var next := WireFields(fields[1..]) + ("}" + rest);
      WireRound(fields[0].value, "," + next);
      FieldsRound(fields[1..], rest);
      ManyFields(fields, rest, next);
    }
  }

  /** Reading what was written and guarded gives back the value, whatever follows. */
  lemma ParseRound(v: Json, rest: string)
    requires Ends(rest)
    ensures Parse(Guarded(Print(v)) + rest) == Some((v, rest))
  {
    GuardedPrint(v);
    WireRound(v, rest);
  }

  lemma {:induction false} ReplaceRemoves(text: string, c: char, escape: string, d: char)
    requires d !in escape && (d == c || d !in text)
    ensures d !in Replace(text, c, escape)
  {
    if text != "" {
      ReplaceRemoves(text[1..], c, escape, d);
    }
  }

  /** Guarded text of any kind holds no markup character. */
  lemma GuardedIsPlain(text: string)
    ensures Plain(Guarded(text))
  {
    var first := Replace(text, '&', AMP);
    var second := Replace(first, '<', LESS);
    ReplaceRemoves(text, '&', AMP, '&');
    ReplaceRemoves(first, '<', LESS, '&');
    ReplaceRemoves(first, '<', LESS, '<');
    ReplaceRemoves(second, '>', GREATER, '&');
    ReplaceRemoves(second, '>', GREATER, '<');
    ReplaceRemoves(second, '>', GREATER, '>');
  }
}
