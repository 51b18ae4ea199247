/** Canonical JSON as it travels: octets, decoded strictly and compared octet by octet. */
module CanonicalBytes {
  import opened Common
  import opened Shapes
  import opened Utf8
  import opened CanonicalJson
  import opened CanonicalRoundTrip
  import opened CanonicalAcceptance

  datatype BytesError = NotUtf8 | Refused(error: Error)

  /** Strict decoding: the text that the octets encode, if they encode one. */
  ghost function Decode(raw: seq<Octet>): (t: Option<string>)
    ensures t.Some? ==> Bytes(t.value) == raw
    ensures t.None? ==> forall u :: Bytes(u) != raw
  {
    if exists u :: Bytes(u) == raw then
      var u :| Bytes(u) == raw;
      Some(u)
    else None
  }

  /** The decoder drops one leading byte order mark. */
  function WithoutMark(t: string): string { if t != "" && t[0] == '\U{FEFF}' then t[1..] else t }

  /** The octets of a printed value, whose strings have passed the surrogate check. */
  function SerializeBytes(v: Value): seq<Octet>
    requires Valid(v) && Proper(v)
  {
    SerializeHasNoLone(v);
    Bytes(Characters(Serialize(v)))
  }

  ghost function ParseBytes(raw: seq<Octet>, read: Reading): Result<Value, BytesError>
  {
    var t := Decode(raw);
    if t.None? then Err(NotUtf8)
    else
      var v := ParseText(Utf16(WithoutMark(t.value)), read);
      if v.Err? then Err(Refused(v.error))
      else if !Valid(v.value) then Err(Refused(JsonInvalid))
      else
        ParsedTextIsProper(Utf16(WithoutMark(t.value)), read);
        if SerializeBytes(v.value) != raw then Err(Refused(NotCanonical)) else Ok(v.value)
  }

  lemma ParsedTextIsProper(text: CanonicalJson.Text, read: Reading)
    requires ParseText(text, read).Ok?
    ensures Proper(ParseText(text, read).value)
  {
    hide ParseValue, Proper;
    ParsedIsProper(text, read);
  }

  // ----- Printed text has no lone surrogates -----

  lemma {:induction false} NoLoneConcat(a: CanonicalJson.Text, b: CanonicalJson.Text)
    requires !LoneSurrogate(a) && !LoneSurrogate(b)
    ensures !LoneSurrogate(a + b)
  {
    if a == [] {
      assert a + b == b;
    } else if High(a[0]) {
      assert (a + b)[2..] == a[2..] + b;
      NoLoneConcat(a[2..], b);
    } else {
      assert (a + b)[1..] == a[1..] + b;
      NoLoneConcat(a[1..], b);
    }
  }

  lemma {:induction false} NoLoneInAscii(s: CanonicalJson.Text)
    requires Ascii(s)
    ensures !LoneSurrogate(s)
  {
    if s != [] {
      assert s[0] in s && forall c | c in s[1..] :: c in s;
      NoLoneInAscii(s[1..]);
    }
  }

  lemma PrintedIsPlain(c: Code)
    requires !High(c) && !Low(c)
    ensures !LoneSurrogate(Printed(c))
  {
    if |Printed(c)| > 1 {
      NoLoneInAscii(Printed(c));
    }
  }

  lemma {:induction false} NoLonePrinted(s: CanonicalJson.Text)
    requires !LoneSurrogate(s)
    ensures !LoneSurrogate(PrintedAll(s))
  {
    if s != [] {
      if High(s[0]) {
        NoLonePrinted(s[2..]);
        assert s[1..][0] == s[1] && s[1..][1..] == s[2..];
        assert PrintedAll(s) == [s[0]] + ([s[1]] + PrintedAll(s[2..]));
        assert PrintedAll(s)[2..] == PrintedAll(s[2..]);
      } else {
        NoLonePrinted(s[1..]);
        PrintedIsPlain(s[0]);
        NoLoneConcat(Printed(s[0]), PrintedAll(s[1..]));
      }
    }
  }

  lemma OneIsPlain(c: Code)
    requires c < 0x80
    ensures !LoneSurrogate([c])
  {
  }

  lemma NoLoneQuoted(s: CanonicalJson.Text)
    requires !LoneSurrogate(s)
    ensures !LoneSurrogate(Quoted(s))
  {
    hide PrintedAll, LoneSurrogate;
    NoLonePrinted(s);
    OneIsPlain(QUOTE);
    NoLoneConcat([QUOTE], PrintedAll(s));
    NoLoneConcat([QUOTE] + PrintedAll(s), [QUOTE]);
  }

  lemma IntegerIsAscii(n: int)
    ensures Ascii(Integer(n))
  {
    hide DecimalText;
  }

  lemma {:induction false} NoLoneWritten(v: Value)
    requires Valid(v)
    ensures !LoneSurrogate(Write(v))
    decreases v, 1
  {
    hide LoneSurrogate, Quoted, Integer, WriteItems, WriteFields;
    match v
    case Num(n) =>
      IntegerIsAscii(n);
      NoLoneInAscii(Integer(n));
    case Str(s) => NoLoneQuoted(s);
    case Arr(items) =>
      OneIsPlain(OPEN_BRACKET);
      OneIsPlain(CLOSE_BRACKET);
      if items != [] {
        NoLoneItems(items);
        NoLoneConcat([OPEN_BRACKET], WriteItems(items));
      } else {
        NoLoneConcat([OPEN_BRACKET], [CLOSE_BRACKET]);
      }
    case Obj(fields) =>
      OneIsPlain(OPEN_BRACE);
      OneIsPlain(CLOSE_BRACE);
      if fields != [] {
        NoLoneFields(fields);
        NoLoneConcat([OPEN_BRACE], WriteFields(fields));
      } else {
        NoLoneConcat([OPEN_BRACE], [CLOSE_BRACE]);
      }
    case _ => NoLoneInAscii(Write(v));
  }

  lemma {:induction false} NoLoneItems(items: seq<Value>)
    requires items != [] && forall i | 0 <= i < |items| :: Valid(items[i])
    ensures !LoneSurrogate(WriteItems(items))
    decreases items, 0
  {
    hide LoneSurrogate, Write, Valid;
    NoLoneWritten(items[0]);
    OneIsPlain(CLOSE_BRACKET);
    OneIsPlain(COMMA);
    if |items| > 1 {
      NoLoneItems(items[1..]);
      NoLoneConcat([COMMA], WriteItems(items[1..]));
    }
    NoLoneConcat(Write(items[0]), if |items| == 1 then [CLOSE_BRACKET] else [COMMA] + WriteItems(items[1..]));
  }

  lemma {:induction false} NoLoneFields(fields: seq<Field<Value>>)
    requires fields != [] && forall i | 0 <= i < |fields| :: Ascii(fields[i].key) && Valid(fields[i].value)
    ensures !LoneSurrogate(WriteFields(fields))
    decreases fields, 0
  {
    hide LoneSurrogate, Write, Valid, Ascii, Quoted;
    var f := fields[0];
    NoLoneInAscii(f.key);
    NoLoneQuoted(f.key);
    NoLoneWritten(f.value);
    OneIsPlain(COLON);
    OneIsPlain(CLOSE_BRACE);
    OneIsPlain(COMMA);
    if |fields| > 1 {
      NoLoneFields(fields[1..]);
      NoLoneConcat([COMMA], WriteFields(fields[1..]));
    }
    NoLoneConcat(Quoted(f.key), [COLON]);
    NoLoneConcat(Quoted(f.key) + [COLON], Write(f.value));
    NoLoneConcat(Quoted(f.key) + [COLON] + Write(f.value),
                 if |fields| == 1 then [CLOSE_BRACE] else [COMMA] + WriteFields(fields[1..]));
  }

  lemma SerializeHasNoLone(v: Value)
    requires Valid(v) && Proper(v)
    ensures !LoneSurrogate(Serialize(v))
  {
    hide LoneSurrogate, Write, Canon, Serialize, Valid, Proper;
    CanonIsCanonical(v);
    SerializeWritesCanon(v);
    NoLoneWritten(Canon(v));
  }

  // ----- Which bodies are accepted -----

  lemma SerializeStarts(v: Value)
    requires Valid(v) && Proper(v)
    ensures var t := (SerializeHasNoLone(v); Characters(Serialize(v))); t != "" && t[0] != '\U{FEFF}'
  {
    hide Write, Canon, Serialize, Valid, Proper;
    SerializeHasNoLone(v);
    SerializeWritesCanon(v);
    WriteStart(Canon(v));
  }

  /** Decoding the octets of a printed value gives its text. */
  lemma SerializedDecodes(v: Value)
    requires Valid(v) && Proper(v)
    ensures var t := Decode(SerializeBytes(v)); t.Some? && Utf16(WithoutMark(t.value)) == Serialize(v)
  {
    hide Serialize, Valid, Proper, Bytes, LoneSurrogate;
    SerializeHasNoLone(v);
    var t := Characters(Serialize(v));
    SerializeStarts(v);
    CharactersEncode(Serialize(v));
    assert Bytes(t) == SerializeBytes(v);
    BytesInjective(t, Decode(SerializeBytes(v)).value);
  }

  /** Printing any valid value and parsing the octets gives the value back, fields in key order. */
  lemma SerializedBytesParse(v: Value, read: Reading)
    requires Valid(v) && Proper(v)
    ensures ParseBytes(SerializeBytes(v), read) == Ok(Canon(v))
  {
    hide Serialize, Valid, Proper, ParseText, Canon, Decode, Bytes, Characters;
    SerializedDecodes(v);
    SerializedTextParses(v, read);
    SameBytes(v, read);
  }

  lemma SameBytes(v: Value, read: Reading)
    requires Valid(v) && Proper(v)
    ensures ParseText(Serialize(v), read) == Ok(Canon(v)) && Valid(Canon(v)) && Proper(Canon(v))
    ensures SerializeBytes(Canon(v)) == SerializeBytes(v)
  {
    hide Serialize, Valid, Proper, ParseText, Canon, Write, Characters, Bytes;
    SerializedTextParses(v, read);
    CanonIsCanonical(v);
    CanonicalStays(Canon(v));
    SerializeWritesCanon(v);
    SerializeWritesCanon(Canon(v));
  }

  /**
   * Main result: a body is accepted exactly when its octets are those of some printed valid value. Anything else is
   * refused, in particular octets that are not UTF-8 and a leading byte order mark.
   */
  lemma BytesAcceptedExactly(raw: seq<Octet>, read: Reading)
    ensures ParseBytes(raw, read).Ok? <==> exists v :: Valid(v) && Proper(v) && SerializeBytes(v) == raw
  {
    hide Serialize, Valid, Proper, ParseText, Decode, SerializeBytes;
    if ParseBytes(raw, read).Ok? {
      ParsedTextIsProper(Utf16(WithoutMark(Decode(raw).value)), read);
      var v := ParseBytes(raw, read).value;
      assert Valid(v) && Proper(v) && SerializeBytes(v) == raw;
    }
    if v :| Valid(v) && Proper(v) && SerializeBytes(v) == raw {
      SerializedBytesParse(v, read);
    }
  }
}
