/** Printing and parsing canonical JSON undo each other. */
module CanonicalRoundTrip {
  import opened Common
  import opened Shapes
  import opened CanonicalJson

  // ----- Printing fields in the order they are in -----

  function Write(v: Value): Text
  {
    match v
    case Arr(items) => [OPEN_BRACKET] + if items == [] then [CLOSE_BRACKET] else WriteItems(items)
    case Obj(fields) => [OPEN_BRACE] + if fields == [] then [CLOSE_BRACE] else WriteFields(fields)
    case Null => NULL
    case Bool(b) => if b then TRUE else FALSE
    case Num(n) => Integer(n)
    case Str(s) => Quoted(s)
  }

  function WriteItems(items: seq<Value>): Text
    requires items != []
  {
    Write(items[0]) + if |items| == 1 then [CLOSE_BRACKET] else [COMMA] + WriteItems(items[1..])
  }

  function WriteFields(fields: seq<Field<Value>>): Text
    requires fields != []
  {
    Quoted(fields[0].key) + [COLON] + Write(fields[0].value)
    + if |fields| == 1 then [CLOSE_BRACE] else [COMMA] + WriteFields(fields[1..])
  }

  // ----- Strings -----

  lemma PrintedCharParses(c: Code, more: Text)
    ensures ParseChars(Printed(c) + more) == Prefix([c], ParseChars(more))
  {
    if c in {0x22, 0x5c, 0x08, 0x0c, 0x0a, 0x0d, 0x09} {
      EscapeParses(Printed(c)[1], more);
    } else if c < 0x20 {
      ControlParses(c, more);
    } else {
      PlainParses(c, more);
    }
  }

  lemma EscapeParses(letter: Code, more: Text)
    requires Unescaped(letter).Some?
    ensures ParseChars([BACKSLASH, letter] + more) == Prefix([Unescaped(letter).value], ParseChars(more))
  {
    hide HexCode, Prefix;
    var s := [BACKSLASH, letter] + more;
    assert s[1..] == [letter] + more && ([letter] + more)[1..] == more;
  }

  lemma PlainParses(c: Code, more: Text)
    requires c >= 0x20 && c != QUOTE && c != BACKSLASH
    ensures ParseChars([c] + more) == Prefix([c], ParseChars(more))
  {
    hide HexCode, Prefix, Unescaped;
    var s := [c] + more;
    assert s[1..] == more;
  }

  lemma ControlParses(c: Code, more: Text)
    requires c < 0x20
    ensures ParseChars([BACKSLASH, LETTER_U, 0x30, 0x30, HexDigit(c / 16), HexDigit(c % 16)] + more)
         == Prefix([c], ParseChars(more))
  {
    hide HexCode, Prefix, HexDigit, Unescaped;
    var digits := [0x30, 0x30, HexDigit(c / 16), HexDigit(c % 16)] + more;
    var s := [BACKSLASH, LETTER_U, 0x30, 0x30, HexDigit(c / 16), HexDigit(c % 16)] + more;
    assert s[1..] == [LETTER_U] + digits && ([LETTER_U] + digits)[1..] == digits;
    HexDigitsRead(c, digits);
    assert ([LETTER_U] + digits)[5..] == more;
  }

  lemma HexDigitsRead(c: Code, s: Text)
    requires c < 0x20 && |s| >= 4 && s[..4] == [0x30, 0x30, HexDigit(c / 16), HexDigit(c % 16)]
    ensures HexCode(s) == Some(c)
  {
    assert s[0] == 0x30 && s[1] == 0x30 && s[2] == HexDigit(c / 16) && s[3] == HexDigit(c % 16);
    assert HexValue(HexDigit(c / 16)) == Some(c / 16);
    assert HexValue(HexDigit(c % 16)) == Some(c % 16);
  }

  lemma {:induction false} PrintedCharsParse(t: Text, rest: Text)
    ensures ParseChars(PrintedAll(t) + [QUOTE] + rest) == Ok(Parsed(t, rest))
  {
    hide Printed;
    if t == [] {
      assert PrintedAll(t) + [QUOTE] + rest == [QUOTE] + rest && ([QUOTE] + rest)[1..] == rest;
    } else {
      var more := PrintedAll(t[1..]) + [QUOTE] + rest;
      assert PrintedAll(t) + [QUOTE] + rest == Printed(t[0]) + more;
      PrintedCharParses(t[0], more);
      PrintedCharsParse(t[1..], rest);
      assert [t[0]] + t[1..] == t;
    }
  }

  lemma QuotedParses(t: Text, rest: Text)
    ensures ParseString(Quoted(t) + rest) == Ok(Parsed(t, rest))
  {
    hide ParseChars, PrintedAll;
    PrintedCharsParse(t, rest);
    assert (Quoted(t) + rest)[1..] == PrintedAll(t) + [QUOTE] + rest;
  }

  // ----- Numbers -----

  lemma {:induction false} DecimalReads(n: nat)
    ensures DigitsValue(DecimalText(n)) == n
    ensures DecimalText(n)[0] == 0x30 <==> n == 0
  {
    var s := DecimalText(n);
    if n < 10 {
      assert s[..0] == [];
      assert DigitsValue([]) == 0;
    } else {
      DecimalReads(n / 10);
      assert s[..|s| - 1] == DecimalText(n / 10);
    }
  }

  lemma {:induction false} DigitsOfRun(s: Text, rest: Text)
    requires (forall c | c in s :: IsDigit(c)) && (rest == [] || !IsDigit(rest[0]))
    ensures Digits(s + rest) == |s|
  {
    if s == [] {
      assert s + rest == rest;
    } else {
      assert (s + rest)[1..] == s[1..] + rest && s[0] in s;
      DigitsOfRun(s[1..], rest);
    }
  }

  /** What may follow a value: nothing, or the delimiter of an array or object. */
  predicate Stops(rest: Text) { rest == [] || rest[0] in {COMMA, CLOSE_BRACKET, CLOSE_BRACE} }

  /** A printed number starts with a zero only when it is zero. */
  lemma DecimalWhole(n: nat, rest: Text)
    requires Stops(rest)
    ensures Digits(DecimalText(n) + rest) == |DecimalText(n)|
    ensures (DecimalText(n) + rest)[0] == 0x30 ==> |DecimalText(n)| == 1
    ensures (DecimalText(n) + rest)[0] != MINUS
  {
    DecimalReads(n);
    DigitsOfRun(DecimalText(n), rest);
    assert (DecimalText(n) + rest)[0] == DecimalText(n)[0] && DecimalText(n)[0] in DecimalText(n);
    ZeroIsOneDigit();
  }

  lemma ZeroIsOneDigit()
    ensures |DecimalText(0)| == 1
  {
  }

  lemma WholeIntegerParses(n: int, rest: Text)
    requires Stops(rest)
    ensures WholePart(Integer(n) + rest) == Some(|Integer(n)|)
    ensures WholeValue(Integer(n)) == n
  {
    hide DecimalText, Digits, DigitsValue, Stops;
    var m: nat := if n < 0 then -n else n;
    var d, s := DecimalText(m), Integer(n) + rest;
    DecimalReads(m);
    DecimalWhole(m, rest);
    if n < 0 {
      assert s[1..] == d + rest && Integer(n)[1..] == d;
    } else {
      assert s[0..] == s && s[0] == d[0];
    }
  }

  lemma IntegerParses(n: int, rest: Text, read: Reading)
    requires Stops(rest) && -MAX_SAFE <= n <= MAX_SAFE
    ensures ParseNumber(Integer(n) + rest, read) == Ok(Parsed(Num(n), rest))
  {
    hide WholePart, WholeValue, Integer, Digits;
    var t := Integer(n);
    var s := t + rest;
    WholeIntegerParses(n, rest);
    assert s[|t|..] == rest && s[|t| + 0..] == rest && s[..|t|] == t;
  }

  // ----- Values -----

  predicate Space(c: Code) { c in {0x20, 0x0a, 0x0d, 0x09} }

  lemma NoSpace(s: Text)
    requires s != [] && !Space(s[0])
    ensures SkipSpace(s) == s
  {
  }

  /** What a printed value starts with. */
  predicate ValueStart(c: Code)
  {
    c in {OPEN_BRACE, OPEN_BRACKET, QUOTE, MINUS, 0x74, 0x66, 0x6e} || IsDigit(c)
  }

  lemma IntegerStart(n: int)
    ensures Integer(n) != [] && (Integer(n)[0] == MINUS || IsDigit(Integer(n)[0]))
  {
    hide DecimalText;
    if n >= 0 {
      assert DecimalText(n)[0] in DecimalText(n);
    }
  }

  lemma WriteStart(v: Value)
    ensures Write(v) != [] && ValueStart(Write(v)[0])
  {
    hide WriteItems, WriteFields, Integer, PrintedAll;
    if v.Num? {
      IntegerStart(v.n);
    }
  }

  lemma ItemsStart(items: seq<Value>)
    requires items != []
    ensures WriteItems(items) != [] && ValueStart(WriteItems(items)[0])
  {
    hide Write;
    WriteStart(items[0]);
  }

  lemma NumberParses(n: int, rest: Text, read: Reading)
    requires Stops(rest) && -MAX_SAFE <= n <= MAX_SAFE
    ensures ParseValue(Integer(n) + rest, read) == Ok(Parsed(Num(n), rest))
  {
    hide Integer, ParseNumber, ParseFields, ParseItems;
    IntegerStart(n);
    NoSpace(Integer(n) + rest);
    IntegerParses(n, rest, read);
  }

  lemma StringParses(t: Text, rest: Text, read: Reading)
    ensures ParseValue(Quoted(t) + rest, read) == Ok(Parsed(Str(t), rest))
  {
    hide ParseString, ParseFields, ParseItems, ParseNumber, PrintedAll;
    NoSpace(Quoted(t) + rest);
    QuotedParses(t, rest);
  }

  lemma LiteralParses(v: Value, rest: Text, read: Reading)
    requires v.Null? || v.Bool?
    ensures ParseValue(Write(v) + rest, read) == Ok(Parsed(v, rest))
  {
    hide ParseString, ParseFields, ParseItems, ParseNumber;
    var t := Write(v);
    NoSpace(t + rest);
    assert (t + rest)[..|t|] == t && (t + rest)[|t|..] == rest;
  }

  /** A value that is printed in its own field order is parsed back, and the text after it is left. */
  lemma {:induction false} WrittenValueParses(v: Value, rest: Text, read: Reading)
    requires Valid(v) && Proper(v) && Stops(rest)
    ensures ParseValue(Write(v) + rest, read) == Ok(Parsed(v, rest))
    decreases v, 1
  {
    match v
    case Num(n) => NumberParses(n, rest, read);
    case Str(s) => StringParses(s, rest, read);
    case Arr(items) =>
      if items == [] {
        EmptyArrayParses(rest, read);
      } else {
        WrittenItemsParse(items, rest, read);
        ArrayParses(items, rest, read);
      }
    case Obj(fields) =>
      if fields == [] {
        EmptyObjectParses(rest, read);
      } else {
        WrittenFieldsParse(fields, {}, rest, read);
        ObjectParses(fields, rest, read);
      }
    case _ => LiteralParses(v, rest, read);
  }

  lemma EmptyArrayParses(rest: Text, read: Reading)
    ensures ParseValue(Write(Arr([])) + rest, read) == Ok(Parsed(Arr([]), rest))
  {
    hide ParseItems;
    var s := Write(Arr([])) + rest;
    NoSpace(s);
    NoSpace(s[1..]);
    assert s[1..][1..] == rest;
  }

  lemma EmptyObjectParses(rest: Text, read: Reading)
    ensures ParseValue(Write(Obj([])) + rest, read) == Ok(Parsed(Obj([]), rest))
  {
    hide ParseFields;
    var s := Write(Obj([])) + rest;
    NoSpace(s);
    NoSpace(s[1..]);
    assert s[1..][1..] == rest;
  }

  lemma ArrayParses(items: seq<Value>, rest: Text, read: Reading)
    requires items != [] && ParseItems(WriteItems(items) + rest, read) == Ok(Parsed(items, rest))
    ensures ParseValue(Write(Arr(items)) + rest, read) == Ok(Parsed(Arr(items), rest))
  {
    hide ParseItems, WriteItems;
    var s := Write(Arr(items)) + rest;
    ItemsStart(items);
    assert s[1..] == WriteItems(items) + rest;
    NoSpace(s);
    NoSpace(s[1..]);
  }

  lemma ObjectParses(fields: seq<Field<Value>>, rest: Text, read: Reading)
    requires fields != [] && ParseFields(WriteFields(fields) + rest, {}, read) == Ok(Parsed(fields, rest))
    ensures ParseValue(Write(Obj(fields)) + rest, read) == Ok(Parsed(Obj(fields), rest))
  {
    hide ParseFields, WriteFields;
    var s := Write(Obj(fields)) + rest;
    FieldsStart(fields);
    assert s[1..] == WriteFields(fields) + rest;
    NoSpace(s);
    NoSpace(s[1..]);
  }

  lemma FieldsStart(fields: seq<Field<Value>>)
    requires fields != []
    ensures WriteFields(fields) != [] && WriteFields(fields)[0] == QUOTE
  {
    hide Write;
  }

  lemma CloseParses(close: Code, rest: Text)
    requires !Space(close)
    ensures ParseDelimiter([close] + rest, close) == Ok(Parsed(true, rest))
  {
    NoSpace([close] + rest);
    assert ([close] + rest)[1..] == rest;
  }

  lemma CommaParses(close: Code, rest: Text)
    requires close != COMMA
    ensures ParseDelimiter([COMMA] + rest, close) == Ok(Parsed(false, rest))
  {
    NoSpace([COMMA] + rest);
    assert ([COMMA] + rest)[1..] == rest;
  }

  lemma {:induction false} WrittenItemsParse(items: seq<Value>, rest: Text, read: Reading)
    requires items != [] && forall i | 0 <= i < |items| :: Valid(items[i]) && Proper(items[i])
    ensures ParseItems(WriteItems(items) + rest, read) == Ok(Parsed(items, rest))
    decreases items, 0
  {
    hide Write, ParseValue, Valid, Proper, ParseDelimiter;
    var more := (if |items| == 1 then [CLOSE_BRACKET] else [COMMA] + WriteItems(items[1..])) + rest;
    assert WriteItems(items) + rest == Write(items[0]) + more;
    WrittenValueParses(items[0], more, read);
    if |items| == 1 {
      CloseParses(CLOSE_BRACKET, rest);
      assert items == [items[0]];
    } else {
      assert more == [COMMA] + (WriteItems(items[1..]) + rest);
      CommaParses(CLOSE_BRACKET, WriteItems(items[1..]) + rest);
      WrittenItemsParse(items[1..], rest, read);
      assert items == [items[0]] + items[1..];
    }
  }

  lemma WrittenKeyParses(key: Text, seen: set<Text>, rest: Text)
    requires Ascii(key) && key !in seen
    ensures ParseKey(Quoted(key) + ([COLON] + rest), seen) == Ok(Parsed(key, rest))
  {
    hide ParseString, Ascii, PrintedAll;
    QuotedParses(key, [COLON] + rest);
    NoSpace(Quoted(key) + ([COLON] + rest));
    NoSpace([COLON] + rest);
    assert ([COLON] + rest)[1..] == rest;
  }

  lemma {:induction false} WrittenFieldsParse(fields: seq<Field<Value>>, seen: set<Text>, rest: Text, read: Reading)
    requires fields != [] && DistinctKeys(fields) && forall i | 0 <= i < |fields| :: fields[i].key !in seen
    requires forall i | 0 <= i < |fields| :: Ascii(fields[i].key) && Valid(fields[i].value) && Proper(fields[i].value)
    ensures ParseFields(WriteFields(fields) + rest, seen, read) == Ok(Parsed(fields, rest))
    decreases fields, 0
  {
    hide Write, ParseValue, ParseKey, Valid, Proper, Ascii, Quoted, ParseDelimiter;
    var f := fields[0];
    var more := (if |fields| == 1 then [CLOSE_BRACE] else [COMMA] + WriteFields(fields[1..])) + rest;
    assert WriteFields(fields) + rest == Quoted(f.key) + ([COLON] + (Write(f.value) + more));
    WrittenKeyParses(f.key, seen, Write(f.value) + more);
    WrittenValueParses(f.value, more, read);
    if |fields| == 1 {
      CloseParses(CLOSE_BRACE, rest);
      assert fields == [Field(f.key, f.value)];
    } else {
      assert more == [COMMA] + (WriteFields(fields[1..]) + rest);
      CommaParses(CLOSE_BRACE, WriteFields(fields[1..]) + rest);
      WrittenFieldsParse(fields[1..], seen + {f.key}, rest, read);
      assert fields == [Field(f.key, f.value)] + fields[1..];
    }
  }

  // ----- Canonical field order -----

  function Canon(v: Value): Value
  {
    match v
    case Arr(items) => Arr(CanonItems(items))
    case Obj(fields) => Obj(Sort(CanonFields(fields)))
    case _ => v
  }

  function CanonItems(items: seq<Value>): (r: seq<Value>)
    ensures |r| == |items|
  {
    if items == [] then [] else [Canon(items[0])] + CanonItems(items[1..])
  }

  function CanonFields(fields: seq<Field<Value>>): (r: seq<Field<Value>>)
    ensures |r| == |fields|
  {
    if fields == [] then [] else [Field(fields[0].key, Canon(fields[0].value))] + CanonFields(fields[1..])
  }

  lemma {:induction false} CanonItemsAt(items: seq<Value>)
    ensures forall i | 0 <= i < |items| :: CanonItems(items)[i] == Canon(items[i])
  {
    hide Canon;
    if items != [] {
      CanonItemsAt(items[1..]);
    }
  }

  lemma {:induction false} CanonFieldsAt(fields: seq<Field<Value>>)
    ensures forall i | 0 <= i < |fields| :: CanonFields(fields)[i] == Field(fields[i].key, Canon(fields[i].value))
  {
    hide Canon;
    if fields != [] {
      CanonFieldsAt(fields[1..]);
    }
  }

  // ----- Key order -----

  lemma {:induction false} KeyLessTotal(a: Text, b: Text)
    ensures a == b || KeyLess(a, b) || KeyLess(b, a)
  {
    if a != [] && b != [] && a[0] == b[0] {
      KeyLessTotal(a[1..], b[1..]);
      assert a == [a[0]] + a[1..] && b == [b[0]] + b[1..];
    }
  }

  lemma {:induction false} KeyLessTransitive(a: Text, b: Text, c: Text)
    requires KeyLess(a, b) && KeyLess(b, c)
    ensures KeyLess(a, c)
  {
    if a != [] && a[0] == b[0] == c[0] {
      KeyLessTransitive(a[1..], b[1..], c[1..]);
    }
  }

  lemma {:induction false} KeyLessIrreflexive(a: Text)
    ensures !KeyLess(a, a)
  {
    if a != [] {
      KeyLessIrreflexive(a[1..]);
    }
  }

  ghost predicate Ascending<T>(fields: seq<Field<T>>)
  {
    forall i, j | 0 <= i < j < |fields| :: KeyLess(fields[i].key, fields[j].key)
  }

  lemma AscendingTail<T>(fields: seq<Field<T>>)
    requires Ascending(fields) && fields != []
    ensures Ascending(fields[1..]) && forall f | f in fields[1..] :: KeyLess(fields[0].key, f.key)
  {
    hide KeyLess;
    var rest := fields[1..];
    assert forall i | 0 <= i < |rest| :: rest[i] == fields[i + 1];
    forall i, j | 0 <= i < j < |rest| ensures KeyLess(rest[i].key, rest[j].key) {
      assert KeyLess(fields[i + 1].key, fields[j + 1].key);
    }
  }

  lemma AscendingCons<T>(f: Field<T>, rest: seq<Field<T>>)
    requires Ascending(rest) && forall g | g in rest :: KeyLess(f.key, g.key)
    ensures Ascending([f] + rest)
  {
    hide KeyLess;
  }

  lemma {:induction false} InsertMembers<T>(f: Field<T>, sorted: seq<Field<T>>)
    ensures forall g | g in Insert(f, sorted) :: g == f || g in sorted
    ensures f in Insert(f, sorted) && forall g | g in sorted :: g in Insert(f, sorted)
    ensures |Insert(f, sorted)| == |sorted| + 1
  {
    hide KeyLess;
    if sorted != [] {
      InsertMembers(f, sorted[1..]);
      assert sorted == [sorted[0]] + sorted[1..];
    }
  }

  lemma {:induction false} InsertAscends<T>(f: Field<T>, sorted: seq<Field<T>>)
    requires Ascending(sorted) && forall g | g in sorted :: g.key != f.key
    ensures Ascending(Insert(f, sorted))
  {
    hide KeyLess;
    if sorted == [] {
    } else {
      var first, rest := sorted[0], sorted[1..];
      AscendingTail(sorted);
      assert sorted == [first] + rest && first in sorted;
      if KeyLess(f.key, first.key) {
        forall g | g in sorted ensures KeyLess(f.key, g.key) {
          if g != first {
            KeyLessTransitive(f.key, first.key, g.key);
          }
        }
        AscendingCons(f, sorted);
      } else {
        KeyLessTotal(f.key, first.key);
        InsertAscends(f, rest);
        InsertMembers(f, rest);
        AscendingCons(first, Insert(f, rest));
      }
    }
  }

  lemma {:induction false} SortMembers<T>(fields: seq<Field<T>>)
    ensures forall g | g in Sort(fields) :: g in fields
    ensures forall g | g in fields :: g in Sort(fields)
    ensures |Sort(fields)| == |fields|
  {
    hide Insert;
    if fields != [] {
      SortMembers(fields[1..]);
      InsertMembers(fields[0], Sort(fields[1..]));
      assert fields == [fields[0]] + fields[1..];
    }
  }

  lemma DistinctTail<T>(fields: seq<Field<T>>)
    requires DistinctKeys(fields) && fields != []
    ensures DistinctKeys(fields[1..]) && forall f | f in fields[1..] :: f.key != fields[0].key
  {
    var rest := fields[1..];
    assert forall i | 0 <= i < |rest| :: rest[i] == fields[i + 1];
    forall i, j | 0 <= i < j < |rest| ensures rest[i].key != rest[j].key {
      assert fields[i + 1].key != fields[j + 1].key;
    }
  }

  lemma {:induction false} SortAscends<T>(fields: seq<Field<T>>)
    requires DistinctKeys(fields)
    ensures Ascending(Sort(fields))
  {
    hide Insert, KeyLess, Ascending;
    if fields == [] {
      NoFieldsAscend<T>();
    } else {
      DistinctTail(fields);
      SortAscends(fields[1..]);
      SortMembers(fields[1..]);
      InsertAscends(fields[0], Sort(fields[1..]));
    }
  }

  lemma NoFieldsAscend<T>()
    ensures Ascending<T>([])
  {
  }

  lemma {:induction false} SortedStays<T>(fields: seq<Field<T>>)
    requires Ascending(fields)
    ensures Sort(fields) == fields
  {
    hide KeyLess;
    if fields != [] {
      AscendingTail(fields);
      SortedStays(fields[1..]);
      assert fields == [fields[0]] + fields[1..];
      if |fields| > 1 {
        assert fields[1..][0] in fields[1..];
      }
    }
  }

  lemma {:induction false} AscendingUnique<T>(a: seq<Field<T>>, b: seq<Field<T>>)
    requires Ascending(a) && Ascending(b) && (forall f | f in a :: f in b) && forall f | f in b :: f in a
    ensures a == b
  {
    hide KeyLess;
    if b != [] {
      assert b[0] in a;
    }
    if a != [] {
      assert a[0] in b && b[0] in a;
      SameFirst(a, b);
      AscendingTail(a);
      AscendingTail(b);
      KeyLessIrreflexive(a[0].key);
      assert a == [a[0]] + a[1..] && b == [b[0]] + b[1..];
      forall f | f in a[1..] ensures f in b[1..] {
        assert f in a && f != a[0];
      }
      forall f | f in b[1..] ensures f in a[1..] {
        assert f in b && f != b[0];
      }
      AscendingUnique(a[1..], b[1..]);
    }
  }

  lemma SameFirst<T>(a: seq<Field<T>>, b: seq<Field<T>>)
    requires Ascending(a) && Ascending(b) && a != [] && b != [] && a[0] in b && b[0] in a
    ensures a[0] == b[0]
  {
    hide KeyLess;
    if a[0] != b[0] {
      assert KeyLess(a[0].key, b[0].key) && KeyLess(b[0].key, a[0].key);
      KeyLessTransitive(a[0].key, b[0].key, a[0].key);
      KeyLessIrreflexive(a[0].key);
    }
  }

  // ----- Printing sorts and then writes -----

  function Texts(fields: seq<Field<Value>>): (r: seq<Field<Text>>)
    ensures |r| == |fields|
  {
    if fields == [] then [] else [Field(fields[0].key, Write(fields[0].value))] + Texts(fields[1..])
  }

  lemma {:induction false} InsertTexts(f: Field<Value>, sorted: seq<Field<Value>>)
    ensures Texts(Insert(f, sorted)) == Insert(Field(f.key, Write(f.value)), Texts(sorted))
  {
    hide Write, KeyLess;
    if sorted == [] || KeyLess(f.key, sorted[0].key) {
      assert ([f] + sorted)[1..] == sorted;
    } else {
      InsertTexts(f, sorted[1..]);
      assert ([sorted[0]] + Insert(f, sorted[1..]))[1..] == Insert(f, sorted[1..]);
      assert Texts(sorted)[1..] == Texts(sorted[1..]);
    }
  }

  lemma {:induction false} SortTexts(fields: seq<Field<Value>>)
    ensures Texts(Sort(fields)) == Sort(Texts(fields))
  {
    hide Write, Insert;
    if fields != [] {
      SortTexts(fields[1..]);
      InsertTexts(fields[0], Sort(fields[1..]));
      assert Texts(fields)[1..] == Texts(fields[1..]);
    }
  }

  lemma CommasCons(first: Text, rest: seq<Text>)
    ensures Commas([first] + rest) == if rest == [] then first else first + [COMMA] + Commas(rest)
  {
    assert ([first] + rest)[1..] == rest;
  }

  lemma {:induction false} MembersWrite(fields: seq<Field<Value>>)
    requires fields != []
    ensures Commas(Members(Texts(fields))) + [CLOSE_BRACE] == WriteFields(fields)
  {
    hide Write, Quoted, Commas;
    var first, rest := Field(fields[0].key, Write(fields[0].value)), Texts(fields[1..]);
    assert Members(Texts(fields)) == [Member(first)] + Members(rest);
    CommasCons(Member(first), Members(rest));
    if |fields| > 1 {
      MembersWrite(fields[1..]);
    }
  }

  lemma {:induction false} ItemsWrite(items: seq<Value>)
    requires items != [] && SerializeItems(items) == Writes(CanonItems(items))
    ensures Commas(SerializeItems(items)) + [CLOSE_BRACKET] == WriteItems(CanonItems(items))
  {
    CommasWrite(CanonItems(items));
  }

  function Writes(items: seq<Value>): seq<Text>
  {
    if items == [] then [] else [Write(items[0])] + Writes(items[1..])
  }

  lemma {:induction false} CommasWrite(items: seq<Value>)
    requires items != []
    ensures Commas(Writes(items)) + [CLOSE_BRACKET] == WriteItems(items)
  {
    hide Write, Commas;
    CommasCons(Write(items[0]), Writes(items[1..]));
    if |items| > 1 {
      CommasWrite(items[1..]);
    }
  }

  /** The printer writes the canonical form. */
  lemma {:induction false} SerializeWritesCanon(v: Value)
    ensures Serialize(v) == Write(Canon(v))
    decreases v, 1
  {
    match v
    case Arr(items) =>
      SerializeItemsWrite(items);
      if items == [] {
        assert Commas([]) == [];
      } else {
        ItemsWrite(items);
      }
    case Obj(fields) =>
      SerializeFieldsWrite(fields);
      ObjectWrites(fields);
    case _ =>
  }

  lemma ObjectWrites(fields: seq<Field<Value>>)
    requires SerializeFields(fields) == Texts(CanonFields(fields))
    ensures Serialize(Obj(fields)) == Write(Canon(Obj(fields)))
  {
    hide WriteFields, CanonFields, SerializeFields, Texts, Commas, Insert;
    SortTexts(CanonFields(fields));
    SortMembers(CanonFields(fields));
    var sorted := Sort(CanonFields(fields));
    if sorted == [] {
      NoMembers();
    } else {
      MembersWrite(sorted);
    }
  }

  lemma NoMembers()
    ensures Commas(Members(Texts([]))) == []
  {
  }

  lemma {:induction false} SerializeItemsWrite(items: seq<Value>)
    ensures SerializeItems(items) == Writes(CanonItems(items))
    decreases items, 0
  {
    hide Serialize, Write, Canon;
    if items != [] {
      SerializeWritesCanon(items[0]);
      SerializeItemsWrite(items[1..]);
    }
  }

  lemma {:induction false} SerializeFieldsWrite(fields: seq<Field<Value>>)
    ensures SerializeFields(fields) == Texts(CanonFields(fields))
    decreases fields, 0
  {
    hide Serialize, Write, Canon;
    if fields != [] {
      SerializeWritesCanon(fields[0].value);
      SerializeFieldsWrite(fields[1..]);
    }
  }

  // ----- The canonical form -----

  /** Every object has its fields in key order. */
  ghost predicate Canonical(v: Value)
  {
    match v
    case Arr(items) => forall i | 0 <= i < |items| :: Canonical(items[i])
    case Obj(fields) => Ascending(fields) && forall i | 0 <= i < |fields| :: Canonical(fields[i].value)
    case _ => true
  }

  lemma CanonFieldsDistinct(fields: seq<Field<Value>>)
    requires DistinctKeys(fields)
    ensures DistinctKeys(CanonFields(fields))
  {
    hide Canon;
    CanonFieldsAt(fields);
  }

  lemma AscendingIsDistinct<T>(fields: seq<Field<T>>)
    requires Ascending(fields)
    ensures DistinctKeys(fields)
  {
    hide KeyLess;
    forall i, j | 0 <= i < j < |fields| ensures fields[i].key != fields[j].key {
      KeyLessIrreflexive(fields[i].key);
      assert KeyLess(fields[i].key, fields[j].key);
    }
  }

  /** The canonical form is canonical, and as valid as the value. */
  lemma {:induction false} CanonIsCanonical(v: Value)
    requires Proper(v)
    ensures Canonical(Canon(v)) && Proper(Canon(v)) && (Valid(v) ==> Valid(Canon(v)))
  {
    match v
    case Arr(items) =>
      CanonItemsAt(items);
      forall i | 0 <= i < |items| ensures Canonical(Canon(items[i])) && Proper(Canon(items[i])) && (Valid(items[i]) ==> Valid(Canon(items[i]))) {
        CanonIsCanonical(items[i]);
      }
    case Obj(fields) =>
      forall i | 0 <= i < |fields|
        ensures var x := fields[i].value; Canonical(Canon(x)) && Proper(Canon(x)) && (Valid(x) ==> Valid(Canon(x)))
      {
        CanonIsCanonical(fields[i].value);
      }
      CanonObject(fields);
    case _ =>
  }

  lemma CanonObject(fields: seq<Field<Value>>)
    requires DistinctKeys(fields)
    requires forall i | 0 <= i < |fields| ::
      var x := fields[i].value; Canonical(Canon(x)) && Proper(Canon(x)) && (Valid(x) ==> Valid(Canon(x)))
    ensures Canonical(Canon(Obj(fields))) && Proper(Canon(Obj(fields)))
    ensures Valid(Obj(fields)) ==> Valid(Canon(Obj(fields)))
  {
    hide Insert, KeyLess, Ascii, Sort;
    var sorted := Sort(CanonFields(fields));
    CanonFieldsDistinct(fields);
    SortAscends(CanonFields(fields));
    SortMembers(CanonFields(fields));
    AscendingIsDistinct(sorted);
    CanonFieldsAt(fields);
    forall k | 0 <= k < |sorted|
      ensures Canonical(sorted[k].value) && Proper(sorted[k].value)
      ensures Valid(Obj(fields)) ==> Ascii(sorted[k].key) && Valid(sorted[k].value)
    {
      assert sorted[k] in CanonFields(fields);
      var i :| 0 <= i < |fields| && CanonFields(fields)[i] == sorted[k];
    }
  }

  lemma {:induction false} CanonicalStays(v: Value)
    requires Canonical(v)
    ensures Canon(v) == v
  {
    match v
    case Arr(items) =>
      CanonItemsAt(items);
      forall i | 0 <= i < |items| ensures Canon(items[i]) == items[i] {
        CanonicalStays(items[i]);
      }
      assert CanonItems(items) == items;
    case Obj(fields) =>
      CanonFieldsAt(fields);
      forall i | 0 <= i < |fields| ensures Canon(fields[i].value) == fields[i].value {
        CanonicalStays(fields[i].value);
      }
      assert CanonFields(fields) == fields;
      SortedStays(fields);
    case _ =>
  }
}
