/** The canonical JSON parser as it runs: an index that moves over the text. */
module JsonParsers {
  import opened Common
  import opened Shapes
  import opened CanonicalJson

  class JsonParser {
    const text: Text
    const read: Reading
    var index: nat

    constructor (text: Text, read: Reading)
      ensures this.text == text && this.read == read && index == 0
    {
      this.text, this.read, index := text, read, 0;
    }

    ghost predicate Valid()
      reads this
    {
      index <= |text|
    }

    /** The text still to be read. */
    ghost function Rest(): Text
      reads this
      requires Valid()
    {
      text[index..]
    }

    /** Whether a result, and the index it leaves, is what parsing `from` gives. */
    ghost predicate Matches<T>(r: Result<T, Error>, p: Parse<T>)
      reads this
    {
      && Valid()
      && (r.Ok? <==> p.Ok?)
      && (r.Ok? ==> p.value == Parsed(r.value, Rest()))
      && (r.Err? ==> p.error == r.error)
    }

    method SkipWhitespace()
      requires Valid()
      modifies this
      ensures Valid() && old(index) <= index && Rest() == SkipSpace(old(Rest()))
    {
      while index < |text| && text[index] in {0x20, 0x0a, 0x0d, 0x09}
        invariant Valid() && old(index) <= index
        invariant SkipSpace(Rest()) == SkipSpace(old(Rest()))
        decreases |text| - index
      {
        assert Rest()[1..] == text[index + 1..];
        index := index + 1;
      }
    }

    /** An escape in a string, after its backslash. */
    method Escape() returns (r: Result<Code, Error>)
      requires Valid()
      modifies this
      ensures Matches(r, ParseEscape(old(Rest()))) && old(index) <= index
    {
      hide HexCode, Unescaped;
      if index == |text| {
        return Err(JsonInvalid);
      }
      var escaped, here := text[index], index;
      ghost var rest := Rest();
      assert rest[1..] == text[here + 1..];
      index := index + 1;
      if escaped == LETTER_U {
        var code := HexCode(text[index..]);
        if code.None? {
          return Err(JsonInvalid);
        }
        HexLength(text[index..]);
        assert rest[5..] == text[here + 5..];
        index := index + 4;
        return Ok(code.value);
      }
      var code := Unescaped(escaped);
      if code.None? {
        return Err(JsonInvalid);
      }
      return Ok(code.value);
    }

    method String() returns (r: Result<Text, Error>)
      requires Valid()
      modifies this
      ensures Matches(r, ParseString(old(Rest()))) && old(index) <= index
      ensures r.Ok? ==> old(index) < index
    {
      hide ParseEscape;
      if index == |text| || text[index] != QUOTE {
        return Err(JsonInvalid);
      }
      ghost var whole := ParseChars(text[index + 1..]);
      assert Rest()[1..] == text[index + 1..];
      index := index + 1;
      var result: Text := [];
      PrefixNothing(whole);
      while index < |text|
        invariant Valid() && old(index) < index
        invariant whole == Prefix(result, ParseChars(Rest()))
        decreases |text| - index
      {
        var c, here := text[index], index;
        ghost var rest := Rest();
        assert rest[1..] == text[here + 1..];
        index := index + 1;
        if c == QUOTE {
          assert result + [] == result;
          return Ok(result);
        }
        if c == BACKSLASH {
          var code := Escape();
          if code.Err? {
            return Err(code.error);
          }
          PrefixTwice(result, code.value, ParseChars(Rest()));
          result := result + [code.value];
        } else {
          if c < 0x20 {
            return Err(JsonInvalid);
          }
          PrefixTwice(result, c, ParseChars(Rest()));
          result := result + [c];
        }
      }
      return Err(JsonInvalid);
    }

    method Number() returns (r: Result<Value, Error>)
      requires Valid()
      modifies this
      ensures Matches(r, ParseNumber(old(Rest()), read)) && old(index) <= index
    {
      hide WholePart, FractionPart, ExponentPart, WholeValue;
      var s := text[index..];
      var whole := WholePart(s);
      if whole.None? {
        return Err(JsonInvalid);
      }
      var fraction := FractionPart(s[whole.value..]);
      var exponent := ExponentPart(s[whole.value + fraction..]);
      var n := whole.value + fraction + exponent;
      index := index + n;
      assert s[n..] == text[index..];
      var value := if fraction + exponent == 0 then Some(WholeValue(s[..n])) else read(s[..n]);
      if value.None? || !(-MAX_SAFE <= value.value <= MAX_SAFE) {
        return Err(JsonInvalid);
      }
      return Ok(Num(value.value));
    }

    method Literal(token: Text, v: Value) returns (r: Result<Value, Error>)
      requires Valid() && token != []
      modifies this
      ensures Matches(r, ParseLiteral(old(Rest()), token, v)) && old(index) <= index
    {
      var end := if index + |token| <= |text| then index + |token| else |text|;
      if text[index..end] != token {
        return Err(JsonInvalid);
      }
      assert Rest()[..|token|] == token && Rest()[|token|..] == text[end..];
      index := end;
      return Ok(v);
    }

    /** What follows an item or a field; the result tells whether it was the last. */
    method Delimiter(close: Code) returns (r: Result<bool, Error>)
      requires Valid()
      modifies this
      ensures Matches(r, ParseDelimiter(old(Rest()), close)) && old(index) <= index
    {
      hide SkipSpace;
      SkipWhitespace();
      if index == |text| {
        return Err(JsonInvalid);
      }
      var delimiter := text[index];
      assert Rest()[1..] == text[index + 1..];
      index := index + 1;
      if delimiter == close {
        return Ok(true);
      }
      if delimiter != COMMA {
        return Err(JsonInvalid);
      }
      return Ok(false);
    }

    method Value() returns (r: Result<Value, Error>)
      requires Valid()
      modifies this
      ensures Matches(r, ParseValue(old(Rest()), read)) && old(index) <= index
      decreases |text| - index, 2
    {
      hide ParseFields, ParseItems, ParseString, ParseNumber, ParseLiteral, SkipSpace;
      SkipWhitespace();
      if index == |text| {
        return Err(JsonInvalid);
      }
      var c := text[index];
      if c == OPEN_BRACE {
        r := Object();
      } else if c == OPEN_BRACKET {
        r := Array();
      } else if c == QUOTE {
        var s := String();
        r := if s.Ok? then Ok(Str(s.value)) else Err(s.error);
      } else if c == 0x74 {
        r := Literal(TRUE, Bool(true));
      } else if c == 0x66 {
        r := Literal(FALSE, Bool(false));
      } else if c == 0x6e {
        r := Literal(NULL, Null);
      } else {
        r := Number();
      }
    }

    method Array() returns (r: Result<Value, Error>)
      requires Valid() && index < |text| && text[index] == OPEN_BRACKET
      modifies this
      ensures Matches(r, ParseArray(old(Rest()), read)) && old(index) <= index
      decreases |text| - index, 1
    {
      hide ParseValue, SkipSpace, ParseDelimiter;
      assert Rest()[1..] == text[index + 1..];
      index := index + 1;
      SkipWhitespace();
      var result: seq<Value> := [];
      if index < |text| && text[index] == CLOSE_BRACKET {
        assert Rest()[1..] == text[index + 1..];
        index := index + 1;
        return Ok(Arr([]));
      }
      ghost var whole := ParseItems(Rest(), read);
      PrefixNothing(whole);
      while true
        invariant Valid() && old(index) < index
        invariant whole == Prefix(result, ParseItems(Rest(), read))
        decreases |text| - index
      {
        ghost var before := index;
        var item := Value();
        if item.Err? {
          return Err(item.error);
        }
        var last := Delimiter(CLOSE_BRACKET);
        if last.Err? {
          return Err(last.error);
        }
        if last.value {
          return Ok(Arr(result + [item.value]));
        }
        PrefixTwice(result, item.value, ParseItems(Rest(), read));
        result := result + [item.value];
      }
    }

    /** The key of a field, up to and with its colon. */
    method Key(seen: set<Text>) returns (r: Result<Text, Error>)
      requires Valid()
      modifies this
      ensures Matches(r, ParseKey(old(Rest()), seen)) && old(index) <= index
    {
      hide ParseString, SkipSpace, Ascii;
      SkipWhitespace();
      var key := String();
      if key.Err? {
        return key;
      }
      if !Ascii(key.value) {
        return Err(JsonInvalid);
      }
      if key.value in seen {
        return Err(DuplicateKey);
      }
      SkipWhitespace();
      if index == |text| || text[index] != COLON {
        return Err(JsonInvalid);
      }
      assert Rest()[1..] == text[index + 1..];
      index := index + 1;
      return key;
    }

    method Object() returns (r: Result<Value, Error>)
      requires Valid() && index < |text| && text[index] == OPEN_BRACE
      modifies this
      ensures Matches(r, ParseObject(old(Rest()), read)) && old(index) <= index
      decreases |text| - index, 1
    {
      hide ParseValue, ParseKey, SkipSpace, ParseDelimiter;
      assert Rest()[1..] == text[index + 1..];
      index := index + 1;
      SkipWhitespace();
      var result: seq<Field<Value>>, seen: set<Text> := [], {};
      if index < |text| && text[index] == CLOSE_BRACE {
        assert Rest()[1..] == text[index + 1..];
        index := index + 1;
        return Ok(Obj([]));
      }
      ghost var whole := ParseFields(Rest(), {}, read);
      PrefixNothing(whole);
      while true
        invariant Valid() && old(index) < index
        invariant whole == Prefix(result, ParseFields(Rest(), seen, read))
        decreases |text| - index
      {
        var key := Key(seen);
        if key.Err? {
          return Err(key.error);
        }
        var value := Value();
        if value.Err? {
          return Err(value.error);
        }
        var last := Delimiter(CLOSE_BRACE);
        if last.Err? {
          return Err(last.error);
        }
        var f := Field(key.value, value.value);
        if last.value {
          return Ok(Obj(result + [f]));
        }
        PrefixTwice(result, f, ParseFields(Rest(), seen + {f.key}, read));
        result, seen := result + [f], seen + {f.key};
      }
    }

    method ParseAll() returns (r: Result<Value, Error>)
      requires index == 0
      modifies this
      ensures r == ParseText(text, read)
    {
      hide ParseValue, SkipSpace;
      assert Rest() == text;
      r := Value();
      if r.Ok? {
        SkipWhitespace();
        if index != |text| {
          return Err(NotCanonical);
        }
      }
    }
  }

  lemma PrefixNothing<T>(p: Parse<seq<T>>)
    ensures Prefix([], p) == p
  {
    if p.Ok? {
      assert [] + p.value.value == p.value.value;
    }
  }

  lemma PrefixTwice<T>(first: seq<T>, next: T, p: Parse<seq<T>>)
    ensures Prefix(first, Prefix([next], p)) == Prefix(first + [next], p)
  {
    if p.Ok? {
      assert first + ([next] + p.value.value) == first + [next] + p.value.value;
    }
  }

  lemma HexLength(s: Text)
    ensures HexCode(s).Some? ==> |s| >= 4
  {
  }

  method HasLoneSurrogate(value: Text) returns (found: bool)
    ensures found == LoneSurrogate(value)
  {
    var index := 0;
    while index < |value|
      invariant index <= |value|
      invariant LoneSurrogate(value[index..]) == LoneSurrogate(value)
    {
      var code, rest := value[index], value[index..];
      assert rest[1..] == value[index + 1..];
      if High(code) {
        if index + 1 >= |value| {
          return true;
        }
        assert rest[2..] == value[index + 2..];
        if !Low(value[index + 1]) {
          return true;
        }
        index := index + 1;
      } else if Low(code) {
        return true;
      }
      index := index + 1;
    }
    return false;
  }

  method ValidateJsonValue(value: Value) returns (ok: bool)
    ensures ok == Valid(value)
    decreases value
  {
    match value
    case Null => return true;
    case Bool(_) => return true;
    case Num(n) => return -MAX_SAFE <= n <= MAX_SAFE;
    case Str(s) =>
      var lone := HasLoneSurrogate(s);
      return !lone;
    case Arr(items) =>
      for i := 0 to |items|
        invariant forall k | 0 <= k < i :: Valid(items[k])
      {
        var itemOk := ValidateJsonValue(items[i]);
        if !itemOk {
          return false;
        }
      }
      return true;
    case Obj(fields) =>
      for i := 0 to |fields|
        invariant forall k | 0 <= k < i :: Ascii(fields[k].key) && Valid(fields[k].value)
      {
        if !Ascii(fields[i].key) {
          return false;
        }
        var childOk := ValidateJsonValue(fields[i].value);
        if !childOk {
          return false;
        }
      }
      return true;
  }

  method ParseCanonicalText(text: Text, read: Reading) returns (r: Result<Value, Error>)
    ensures r == ParseCanonical(text, read)
  {
    hide Valid, Serialize, ParseText;
    var parser := new JsonParser(text, read);
    r := parser.ParseAll();
    if r.Ok? {
      var ok := ValidateJsonValue(r.value);
      if !ok {
        return Err(JsonInvalid);
      }
      if Serialize(r.value) != text {
        return Err(NotCanonical);
      }
    }
  }
}
