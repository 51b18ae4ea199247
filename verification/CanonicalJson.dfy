/**
 * Canonical JSON text (RFC 8259): a value has one accepted text, the one the printer gives. Text is a
 * sequence of UTF-16 code units, as in the source language.
 */
module CanonicalJson {
  import opened Common
  import opened Shapes

  type Code = x: int | 0 <= x < 0x1_0000

  type Text = seq<Code>

  datatype Field<T> = Field(key: Text, value: T)

  /** Object fields are kept in the order they were added. */
  datatype Value = Null | Bool(b: bool) | Num(n: int) | Str(s: Text) | Arr(items: seq<Value>) | Obj(fields: seq<Field<Value>>)

  datatype Error = JsonInvalid | DuplicateKey | NotCanonical

  const QUOTE: Code := 0x22
  const BACKSLASH: Code := 0x5c
  const COMMA: Code := 0x2c
  const COLON: Code := 0x3a
  const OPEN_BRACE: Code := 0x7b
  const CLOSE_BRACE: Code := 0x7d
  const OPEN_BRACKET: Code := 0x5b
  const CLOSE_BRACKET: Code := 0x5d
  const MINUS: Code := 0x2d
  const POINT: Code := 0x2e
  const LETTER_U: Code := 0x75
  const TRUE: Text := [0x74, 0x72, 0x75, 0x65]
  const FALSE: Text := [0x66, 0x61, 0x6c, 0x73, 0x65]
  const NULL: Text := [0x6e, 0x75, 0x6c, 0x6c]

  // ----- Values -----

  function High(c: Code): bool { 0xd800 <= c <= 0xdbff }

  function Low(c: Code): bool { 0xdc00 <= c <= 0xdfff }

  predicate LoneSurrogate(s: Text)
  {
    if s == [] then false
    else if High(s[0]) then |s| == 1 || !Low(s[1]) || LoneSurrogate(s[2..])
    else Low(s[0]) || LoneSurrogate(s[1..])
  }

  predicate Ascii(s: Text) { forall c | c in s :: c < 0x80 }

  /** What the validator accepts. */
  predicate Valid(v: Value)
  {
    match v
    case Null => true
    case Bool(_) => true
    case Num(n) => -MAX_SAFE <= n <= MAX_SAFE
    case Str(s) => !LoneSurrogate(s)
    case Arr(items) => forall i | 0 <= i < |items| :: Valid(items[i])
    case Obj(fields) => forall i | 0 <= i < |fields| :: Ascii(fields[i].key) && Valid(fields[i].value)
  }

  predicate DistinctKeys<T>(fields: seq<Field<T>>)
  {
    forall i, j | 0 <= i < j < |fields| :: fields[i].key != fields[j].key
  }

  /** Every object has each key once, as objects do. */
  predicate Proper(v: Value)
  {
    match v
    case Arr(items) => forall i | 0 <= i < |items| :: Proper(items[i])
    case Obj(fields) => DistinctKeys(fields) && forall i | 0 <= i < |fields| :: Proper(fields[i].value)
    case _ => true
  }

  // ----- Printing -----

  function HexDigit(n: nat): Code
    requires n < 16
  {
    if n < 10 then 0x30 + n else 0x57 + n
  }

  /** One code unit inside a printed string. */
  function Printed(c: Code): Text
  {
    match c
    case 0x22 => [BACKSLASH, QUOTE]
    case 0x5c => [BACKSLASH, BACKSLASH]
    case 0x08 => [BACKSLASH, 0x62]
    case 0x0c => [BACKSLASH, 0x66]
    case 0x0a => [BACKSLASH, 0x6e]
    case 0x0d => [BACKSLASH, 0x72]
    case 0x09 => [BACKSLASH, 0x74]
    case _ => if c < 0x20 then [BACKSLASH, LETTER_U, 0x30, 0x30, HexDigit(c / 16), HexDigit(c % 16)] else [c]
  }

  function PrintedAll(s: Text): Text { if s == [] then [] else Printed(s[0]) + PrintedAll(s[1..]) }

  function Quoted(s: Text): Text { [QUOTE] + PrintedAll(s) + [QUOTE] }

  function DecimalText(n: nat): (s: Text)
    ensures s != [] && forall c | c in s :: 0x30 <= c <= 0x39
  {
    if n < 10 then [0x30 + n] else DecimalText(n / 10) + [0x30 + n % 10]
  }

  function Integer(n: int): Text { if n < 0 then [MINUS] + DecimalText(-n) else DecimalText(n) }

  /** Key order: by code unit. */
  predicate KeyLess(a: Text, b: Text)
  {
    if b == [] then false
    else if a == [] then true
    else a[0] < b[0] || (a[0] == b[0] && KeyLess(a[1..], b[1..]))
  }

  function Insert<T>(f: Field<T>, sorted: seq<Field<T>>): seq<Field<T>>
  {
    if sorted == [] || KeyLess(f.key, sorted[0].key) then [f] + sorted else [sorted[0]] + Insert(f, sorted[1..])
  }

  function Sort<T>(fields: seq<Field<T>>): seq<Field<T>>
  {
    if fields == [] then [] else Insert(fields[0], Sort(fields[1..]))
  }

  function Commas(parts: seq<Text>): Text
  {
    if parts == [] then [] else if |parts| == 1 then parts[0] else parts[0] + [COMMA] + Commas(parts[1..])
  }

  function Member(f: Field<Text>): Text { Quoted(f.key) + [COLON] + f.value }

  function Members(fields: seq<Field<Text>>): seq<Text> { seq(|fields|, i requires 0 <= i < |fields| => Member(fields[i])) }

  function Serialize(v: Value): Text
  {
    match v
    case Null => NULL
    case Bool(b) => if b then TRUE else FALSE
    case Num(n) => Integer(n)
    case Str(s) => Quoted(s)
    case Arr(items) => [OPEN_BRACKET] + Commas(SerializeItems(items)) + [CLOSE_BRACKET]
    case Obj(fields) => [OPEN_BRACE] + Commas(Members(Sort(SerializeFields(fields)))) + [CLOSE_BRACE]
  }

  function SerializeItems(items: seq<Value>): seq<Text>
  {
    if items == [] then [] else [Serialize(items[0])] + SerializeItems(items[1..])
  }

  function SerializeFields(fields: seq<Field<Value>>): seq<Field<Text>>
  {
    if fields == [] then []
    else [Field(fields[0].key, Serialize(fields[0].value))] + SerializeFields(fields[1..])
  }

  // ----- Parsing -----

  /** What was read, and the text after it. */
  datatype Parsed<T> = Parsed(value: T, rest: Text)

  type Parse<T> = Result<Parsed<T>, Error>

  /** The value of a number written with a fraction or an exponent, when it is an integer. */
  type Reading = Text -> Option<int>

  function SkipSpace(s: Text): (r: Text)
    ensures |r| <= |s|
  {
    if s != [] && s[0] in {0x20, 0x0a, 0x0d, 0x09} then SkipSpace(s[1..]) else s
  }

  function Prefix<T>(first: seq<T>, p: Parse<seq<T>>): Parse<seq<T>>
  {
    if p.Ok? then Ok(Parsed(first + p.value.value, p.value.rest)) else p
  }

  function HexValue(c: Code): (n: Option<nat>)
    ensures n.Some? ==> n.value < 16
  {
    if 0x30 <= c <= 0x39 then Some(c - 0x30)
    else if 0x61 <= c <= 0x66 then Some(c - 0x57)
    else if 0x41 <= c <= 0x46 then Some(c - 0x37)
    else None
  }

  /** The code unit of four hexadecimal digits. */
  function HexCode(s: Text): Option<Code>
  {
    if |s| < 4 then None
    else
      match (HexValue(s[0]), HexValue(s[1]), HexValue(s[2]), HexValue(s[3]))
      case (Some(a), Some(b), Some(c), Some(d)) => Some(a * 4096 + b * 256 + c * 16 + d)
      case _ => None
  }

  function Unescaped(c: Code): Option<Code>
  {
    match c
    case 0x22 => Some(QUOTE)
    case 0x5c => Some(BACKSLASH)
    case 0x2f => Some(0x2f)
    case 0x62 => Some(0x08)
    case 0x66 => Some(0x0c)
    case 0x6e => Some(0x0a)
    case 0x72 => Some(0x0d)
    case 0x74 => Some(0x09)
    case _ => None
  }

  /** An escape after its backslash. */
  function ParseEscape(s: Text): (p: Parse<Code>)
    ensures p.Ok? ==> |p.value.rest| < |s|
  {
    if s == [] then Err(JsonInvalid)
    else if s[0] == LETTER_U then
      var c := HexCode(s[1..]);
      if c.None? then Err(JsonInvalid) else Ok(Parsed(c.value, s[5..]))
    else
      var c := Unescaped(s[0]);
      if c.None? then Err(JsonInvalid) else Ok(Parsed(c.value, s[1..]))
  }

  /** The rest of a string after its opening quote. */
  function ParseChars(s: Text): (p: Parse<Text>)
    ensures p.Ok? ==> |p.value.rest| < |s|
  {
    if s == [] then Err(JsonInvalid)
    else if s[0] == QUOTE then Ok(Parsed([], s[1..]))
    else if s[0] == BACKSLASH then
      var c := ParseEscape(s[1..]);
      if c.Err? then Err(c.error) else Prefix([c.value.value], ParseChars(c.value.rest))
    else if s[0] < 0x20 then Err(JsonInvalid)
    else Prefix([s[0]], ParseChars(s[1..]))
  }

  function ParseString(s: Text): (p: Parse<Text>)
    ensures p.Ok? ==> |p.value.rest| < |s|
  {
    if s == [] || s[0] != QUOTE then Err(JsonInvalid) else ParseChars(s[1..])
  }

  predicate IsDigit(c: Code) { 0x30 <= c <= 0x39 }

  /** The length of the longest run of digits that starts the text. */
  function Digits(s: Text): (n: nat)
    ensures n <= |s| && (forall i | 0 <= i < n :: IsDigit(s[i])) && (n < |s| ==> !IsDigit(s[n]))
  {
    if s == [] || !IsDigit(s[0]) then 0 else 1 + Digits(s[1..])
  }

  /** The length of the sign and integer part, or none. */
  function WholePart(s: Text): (n: Option<nat>)
    ensures n.Some? ==> 0 < n.value <= |s|
  {
    var sign := if s != [] && s[0] == MINUS then 1 else 0;
    var n := Digits(s[sign..]);
    if n == 0 then None else if s[sign] == 0x30 then Some(sign + 1) else Some(sign + n)
  }

  function FractionPart(s: Text): (n: nat)
    ensures n <= |s|
  {
    if s != [] && s[0] == POINT && Digits(s[1..]) > 0 then 1 + Digits(s[1..]) else 0
  }

  function ExponentPart(s: Text): (n: nat)
    ensures n <= |s|
  {
    if s != [] && s[0] in {0x65, 0x45} then
      var sign := if |s| > 1 && s[1] in {0x2b, 0x2d} then 1 else 0;
      var n := Digits(s[1 + sign..]);
      if n > 0 then 1 + sign + n else 0
    else 0
  }

  function DigitsValue(s: Text): int
  {
    if s == [] then 0 else 10 * DigitsValue(s[..|s| - 1]) + s[|s| - 1] - 0x30
  }

  function WholeValue(s: Text): int
    requires s != []
  {
    if s[0] == MINUS then -DigitsValue(s[1..]) else DigitsValue(s)
  }

  function ParseNumber(s: Text, read: Reading): (p: Parse<Value>)
    ensures p.Ok? ==> |p.value.rest| < |s|
  {
    var whole := WholePart(s);
    if whole.None? then Err(JsonInvalid)
    else
      var fraction := FractionPart(s[whole.value..]);
      var exponent := ExponentPart(s[whole.value + fraction..]);
      var n := whole.value + fraction + exponent;
      var value := if fraction + exponent == 0 then Some(WholeValue(s[..n])) else read(s[..n]);
      if value.None? || !(-MAX_SAFE <= value.value <= MAX_SAFE) then Err(JsonInvalid)
      else Ok(Parsed(Num(value.value), s[n..]))
  }

  function ParseLiteral(s: Text, token: Text, v: Value): (p: Parse<Value>)
    requires token != []
    ensures p.Ok? ==> |p.value.rest| < |s|
  {
    if token <= s then Ok(Parsed(v, s[|token|..])) else Err(JsonInvalid)
  }

  /** What follows an item or a field: the closing mark, or a comma before the next. */
  function ParseDelimiter(text: Text, close: Code): (p: Parse<bool>)
    ensures p.Ok? ==> |p.value.rest| < |text|
  {
    var s := SkipSpace(text);
    if s != [] && s[0] == close then Ok(Parsed(true, s[1..]))
    else if s == [] || s[0] != COMMA then Err(JsonInvalid)
    else Ok(Parsed(false, s[1..]))
  }

  function ParseValue(text: Text, read: Reading): (p: Parse<Value>)
    ensures p.Ok? ==> |p.value.rest| < |text|
    decreases |text|, 2
  {
    var s := SkipSpace(text);
    if s == [] then Err(JsonInvalid)
    else if s[0] == OPEN_BRACE then ParseObject(s, read)
    else if s[0] == OPEN_BRACKET then ParseArray(s, read)
    else if s[0] == QUOTE then
      var p := ParseString(s);
      if p.Err? then Err(p.error) else Ok(Parsed(Str(p.value.value), p.value.rest))
    else if s[0] == 0x74 then ParseLiteral(s, TRUE, Bool(true))
    else if s[0] == 0x66 then ParseLiteral(s, FALSE, Bool(false))
    else if s[0] == 0x6e then ParseLiteral(s, NULL, Null)
    else ParseNumber(s, read)
  }

  function ParseArray(s: Text, read: Reading): (p: Parse<Value>)
    requires s != []
    ensures p.Ok? ==> |p.value.rest| < |s|
    decreases |s|, 1
  {
    var t := SkipSpace(s[1..]);
    if t != [] && t[0] == CLOSE_BRACKET then Ok(Parsed(Arr([]), t[1..]))
    else
      var p := ParseItems(t, read);
      if p.Err? then Err(p.error) else Ok(Parsed(Arr(p.value.value), p.value.rest))
  }

  function ParseObject(s: Text, read: Reading): (p: Parse<Value>)
    requires s != []
    ensures p.Ok? ==> |p.value.rest| < |s|
    decreases |s|, 1
  {
    var t := SkipSpace(s[1..]);
    if t != [] && t[0] == CLOSE_BRACE then Ok(Parsed(Obj([]), t[1..]))
    else
      var p := ParseFields(t, {}, read);
      if p.Err? then Err(p.error) else Ok(Parsed(Obj(p.value.value), p.value.rest))
  }

  /** The items of an array from an item on, up to its closing bracket. */
  function ParseItems(text: Text, read: Reading): (p: Parse<seq<Value>>)
    ensures p.Ok? ==> |p.value.rest| < |text|
    decreases |text|, 3
  {
    var item := ParseValue(text, read);
    if item.Err? then Err(item.error)
    else
      var last := ParseDelimiter(item.value.rest, CLOSE_BRACKET);
      if last.Err? then Err(last.error)
      else if last.value.value then Ok(Parsed([item.value.value], last.value.rest))
      else Prefix([item.value.value], ParseItems(last.value.rest, read))
  }

  /** The key of a field, checked against those seen, with the text after its colon. */
  function ParseKey(text: Text, seen: set<Text>): (p: Parse<Text>)
    ensures p.Ok? ==> |p.value.rest| < |text| && p.value.value !in seen && Ascii(p.value.value)
  {
    var key := ParseString(SkipSpace(text));
    if key.Err? then key
    else if !Ascii(key.value.value) then Err(JsonInvalid)
    else if key.value.value in seen then Err(DuplicateKey)
    else
      var s := SkipSpace(key.value.rest);
      if s == [] || s[0] != COLON then Err(JsonInvalid) else Ok(Parsed(key.value.value, s[1..]))
  }

  /** The fields of an object from a field on, up to its closing brace. */
  function ParseFields(text: Text, seen: set<Text>, read: Reading): (p: Parse<seq<Field<Value>>>)
    ensures p.Ok? ==> |p.value.rest| < |text|
    decreases |text|, 3
  {
    var key := ParseKey(text, seen);
    if key.Err? then Err(key.error)
    else
      var value := ParseValue(key.value.rest, read);
      if value.Err? then Err(value.error)
      else
        var f, last := Field(key.value.value, value.value.value), ParseDelimiter(value.value.rest, CLOSE_BRACE);
        if last.Err? then Err(last.error)
        else if last.value.value then Ok(Parsed([f], last.value.rest))
        else Prefix([f], ParseFields(last.value.rest, seen + {f.key}, read))
  }

  function ParseText(text: Text, read: Reading): Result<Value, Error>
  {
    var p := ParseValue(text, read);
    if p.Err? then Err(p.error)
    else if SkipSpace(p.value.rest) != [] then Err(NotCanonical)
    else Ok(p.value.value)
  }

  /** A text is accepted when it parses to a valid value that prints as that very text. */
  function ParseCanonical(text: Text, read: Reading): Result<Value, Error>
  {
    var v := ParseText(text, read);
    if v.Err? then v
    else if !Valid(v.value) then Err(JsonInvalid)
    else if Serialize(v.value) != text then Err(NotCanonical)
    else v
  }
}
