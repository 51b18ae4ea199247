/** Which texts the canonical parser accepts, and which values print alike. */
module CanonicalAcceptance {
  import opened Common
  import opened Shapes
  import opened CanonicalJson
  import opened CanonicalRoundTrip

  // ----- Parsed values are proper -----

  predicate ProperFields(fields: seq<Field<Value>>, seen: set<Text>)
  {
    && DistinctKeys(fields)
    && forall i | 0 <= i < |fields| :: fields[i].key !in seen && Proper(fields[i].value)
  }

  /** Whatever the text, a parsed value has each key once in every object. */
  lemma {:induction false} ParsedIsProper(text: Text, read: Reading)
    requires ParseValue(text, read).Ok?
    ensures Proper(ParseValue(text, read).value.value)
    decreases |text|, 2
  {
    hide ParseItems, ParseFields, ParseString, ParseNumber, SkipSpace;
    var s := SkipSpace(text);
    if s[0] == OPEN_BRACE {
      ParsedFieldsAreProper(SkipSpace(s[1..]), {}, read);
    } else if s[0] == OPEN_BRACKET {
      ParsedItemsAreProper(SkipSpace(s[1..]), read);
    } else {
      ParsedScalar(s, read);
    }
  }

  lemma ParsedScalar(s: Text, read: Reading)
    ensures ParseNumber(s, read).Ok? ==> ParseNumber(s, read).value.value.Num?
  {
  }

  lemma {:induction false} ParsedItemsAreProper(text: Text, read: Reading)
    ensures ParseItems(text, read).Ok? ==> Proper(Arr(ParseItems(text, read).value.value))
    decreases |text|, 3
  {
    hide ParseValue, ParseDelimiter;
    var item := ParseValue(text, read);
    if item.Ok? {
      ParsedIsProper(text, read);
      var last := ParseDelimiter(item.value.rest, CLOSE_BRACKET);
      if last.Ok? && !last.value.value {
        ParsedItemsAreProper(last.value.rest, read);
      }
    }
  }

  lemma {:induction false} ParsedFieldsAreProper(text: Text, seen: set<Text>, read: Reading)
    ensures ParseFields(text, seen, read).Ok? ==> ProperFields(ParseFields(text, seen, read).value.value, seen)
    decreases |text|, 3
  {
    hide ParseValue, ParseKey, ParseDelimiter;
    var key := ParseKey(text, seen);
    if key.Ok? {
      var value := ParseValue(key.value.rest, read);
      if value.Ok? {
        ParsedIsProper(key.value.rest, read);
        var last := ParseDelimiter(value.value.rest, CLOSE_BRACE);
        if last.Ok? && !last.value.value {
          ParsedFieldsAreProper(last.value.rest, seen + {key.value.value}, read);
        }
      }
    }
  }

  // ----- The main results -----

  /**
   * Main result: the round trip. Printing any valid value and parsing the text gives the value back, with the
   * fields of its objects in key order.
   */
  lemma SerializedTextParses(v: Value, read: Reading)
    requires Valid(v) && Proper(v)
    ensures ParseCanonical(Serialize(v), read) == Ok(Canon(v))
  {
    hide Serialize, Canon, Write, ParseValue, Valid, Proper;
    CanonIsCanonical(v);
    SerializeWritesCanon(v);
    WrittenValueParses(Canon(v), [], read);
    assert Write(Canon(v)) + [] == Write(Canon(v));
    CanonicalStays(Canon(v));
    SerializeWritesCanon(Canon(v));
  }

  /** Main result: a text is accepted exactly when it is what some valid value prints as. */
  lemma AcceptedExactly(text: Text, read: Reading)
    ensures ParseCanonical(text, read).Ok? <==> exists v :: Valid(v) && Proper(v) && Serialize(v) == text
  {
    hide Serialize, Valid, Proper, ParseValue;
    if ParseCanonical(text, read).Ok? {
      ParsedIsProper(text, read);
      var v := ParseCanonical(text, read).value;
      assert Valid(v) && Proper(v) && Serialize(v) == text;
    }
    if v :| Valid(v) && Proper(v) && Serialize(v) == text {
      SerializedTextParses(v, read);
    }
  }

  // ----- Values that print alike -----

  /** The same value, up to the order of fields. */
  ghost predicate Same(v: Value, w: Value)
    decreases v
  {
    match v
    case Arr(items) =>
      w.Arr? && |items| == |w.items| && forall i | 0 <= i < |items| :: Same(items[i], w.items[i])
    case Obj(fields) =>
      && w.Obj?
      && (forall i | 0 <= i < |fields| :: SameAsSome(fields[i], w.fields))
      && (forall j | 0 <= j < |w.fields| :: SomeSameAs(fields, w.fields[j]))
    case _ => v == w
  }

  ghost predicate SameAsSome(f: Field<Value>, fields: seq<Field<Value>>)
    decreases f
  {
    exists j | 0 <= j < |fields| :: f.key == fields[j].key && Same(f.value, fields[j].value)
  }

  ghost predicate SomeSameAs(fields: seq<Field<Value>>, f: Field<Value>)
    decreases fields
  {
    exists i | 0 <= i < |fields| :: fields[i].key == f.key && Same(fields[i].value, f.value)
  }

  lemma {:induction false} CanonAgrees(v: Value, w: Value)
    requires Proper(v) && Proper(w)
    ensures Canon(v) == Canon(w) <==> Same(v, w)
    decreases v
  {
    hide CanonItems, CanonFields, SameAsSome, SomeSameAs;
    match v
    case Arr(items) =>
      if w.Arr? && |w.items| == |items| {
        forall i | 0 <= i < |items| ensures Canon(items[i]) == Canon(w.items[i]) <==> Same(items[i], w.items[i]) {
          CanonAgrees(items[i], w.items[i]);
        }
        CanonItemsAgree(items, w.items);
      } else if w.Arr? {
        assert |CanonItems(items)| != |CanonItems(w.items)|;
      }
    case Obj(fields) =>
      if w.Obj? {
        forall i, j | 0 <= i < |fields| && 0 <= j < |w.fields|
          ensures Canon(fields[i].value) == Canon(w.fields[j].value) <==> Same(fields[i].value, w.fields[j].value)
        {
          CanonAgrees(fields[i].value, w.fields[j].value);
        }
        ObjectsAgree(fields, w.fields);
      }
    case _ =>
  }

  lemma ObjectsAgree(a: seq<Field<Value>>, b: seq<Field<Value>>)
    requires DistinctKeys(a) && DistinctKeys(b)
    requires forall i, j | 0 <= i < |a| && 0 <= j < |b| ::
      Canon(a[i].value) == Canon(b[j].value) <==> Same(a[i].value, b[j].value)
    ensures Canon(Obj(a)) == Canon(Obj(b)) <==> Same(Obj(a), Obj(b))
  {
    hide CanonFields, Sort, Same, DistinctKeys;
    CanonFieldsAgree(a, b);
    forall i | 0 <= i < |a| ensures HasField(a[i], b) <==> SameAsSome(a[i], b) {
    }
    forall j | 0 <= j < |b| ensures HasField(b[j], a) <==> SomeSameAs(a, b[j]) {
    }
    SameObjects(a, b);
  }

  lemma SameObjects(a: seq<Field<Value>>, b: seq<Field<Value>>)
    ensures Same(Obj(a), Obj(b))
       <==> (forall i | 0 <= i < |a| :: SameAsSome(a[i], b)) && (forall j | 0 <= j < |b| :: SomeSameAs(a, b[j]))
  {
    hide SameAsSome, SomeSameAs;
  }

  lemma CanonItemsAgree(a: seq<Value>, b: seq<Value>)
    requires |a| == |b|
    ensures CanonItems(a) == CanonItems(b) <==> forall i | 0 <= i < |a| :: Canon(a[i]) == Canon(b[i])
  {
    hide Canon;
    CanonItemsAt(a);
    CanonItemsAt(b);
    if CanonItems(a) == CanonItems(b) {
      forall i | 0 <= i < |a| ensures Canon(a[i]) == Canon(b[i]) {
        assert CanonItems(a)[i] == CanonItems(b)[i];
      }
    }
  }

  /** Whether some field has this one's key and canonical value. */
  ghost predicate HasField(f: Field<Value>, fields: seq<Field<Value>>)
  {
    exists j | 0 <= j < |fields| :: f.key == fields[j].key && Canon(f.value) == Canon(fields[j].value)
  }

  ghost predicate FieldsWithin(a: seq<Field<Value>>, b: seq<Field<Value>>)
  {
    forall i | 0 <= i < |a| :: HasField(a[i], b)
  }

  lemma CanonMember(f: Field<Value>, fields: seq<Field<Value>>)
    ensures HasField(f, fields) <==> Field(f.key, Canon(f.value)) in CanonFields(fields)
  {
    hide Canon, CanonFields;
    CanonFieldsAt(fields);
    if j :| 0 <= j < |fields| && f.key == fields[j].key && Canon(f.value) == Canon(fields[j].value) {
      assert CanonFields(fields)[j] == Field(f.key, Canon(f.value));
    }
    if Field(f.key, Canon(f.value)) in CanonFields(fields) {
      var j :| 0 <= j < |CanonFields(fields)| && CanonFields(fields)[j] == Field(f.key, Canon(f.value));
      assert f.key == fields[j].key;
    }
  }

  lemma WithinMembers(a: seq<Field<Value>>, b: seq<Field<Value>>)
    ensures FieldsWithin(a, b) <==> forall f | f in CanonFields(a) :: f in CanonFields(b)
  {
    hide Canon, CanonFields, HasField;
    CanonFieldsAt(a);
    forall i | 0 <= i < |a| ensures HasField(a[i], b) <==> CanonFields(a)[i] in CanonFields(b) {
      CanonMember(a[i], b);
    }
    if FieldsWithin(a, b) {
      forall f | f in CanonFields(a) ensures f in CanonFields(b) {
        var i :| 0 <= i < |CanonFields(a)| && CanonFields(a)[i] == f;
        assert HasField(a[i], b);
      }
    }
    if forall f | f in CanonFields(a) :: f in CanonFields(b) {
      forall i | 0 <= i < |a| ensures HasField(a[i], b) {
        assert CanonFields(a)[i] in CanonFields(a);
      }
    }
  }

  lemma CanonFieldsAgree(a: seq<Field<Value>>, b: seq<Field<Value>>)
    requires DistinctKeys(a) && DistinctKeys(b)
    ensures Sort(CanonFields(a)) == Sort(CanonFields(b)) <==> FieldsWithin(a, b) && FieldsWithin(b, a)
  {
    hide Canon, CanonFields, Sort, FieldsWithin, Ascending;
    WithinMembers(a, b);
    WithinMembers(b, a);
    SortMembers(CanonFields(a));
    SortMembers(CanonFields(b));
    CanonFieldsDistinct(a);
    CanonFieldsDistinct(b);
    SortAscends(CanonFields(a));
    SortAscends(CanonFields(b));
    if FieldsWithin(a, b) && FieldsWithin(b, a) {
      AscendingUnique(Sort(CanonFields(a)), Sort(CanonFields(b)));
    }
    if Sort(CanonFields(a)) == Sort(CanonFields(b)) {
      forall f | f in CanonFields(a) ensures f in CanonFields(b) {
        assert f in Sort(CanonFields(a));
      }
      forall f | f in CanonFields(b) ensures f in CanonFields(a) {
        assert f in Sort(CanonFields(b));
      }
    }
  }

  /** Main result: printing is injective. Valid values print alike exactly when they are the same up to field order. */
  lemma PrintAlikeExactly(v: Value, w: Value)
    requires Valid(v) && Proper(v) && Valid(w) && Proper(w)
    ensures Serialize(v) == Serialize(w) <==> Same(v, w)
  {
    hide Serialize, Canon, Same, Valid, Proper, ParseCanonical, Write;
    var read: Reading := _ => None;
    CanonAgrees(v, w);
    SerializedTextParses(v, read);
    SerializedTextParses(w, read);
    SerializeWritesCanon(v);
    SerializeWritesCanon(w);
  }

  // ----- Surrogates -----

  /** The UTF-16 form of a text of characters. */
  function Utf16(t: string): Text
  {
    if t == "" then []
    else
      var x := t[0] as int;
      (if x < 0x1_0000 then [x] else [0xd800 + (x - 0x1_0000) / 0x400, 0xdc00 + (x - 0x1_0000) % 0x400]) + Utf16(t[1..])
  }

  /** The characters of a text without lone surrogates. */
  function Characters(s: Text): string
    requires !LoneSurrogate(s)
  {
    if s == [] then ""
    else if High(s[0]) then
      var high: int, low: int := s[0], s[1];
      [(0x1_0000 + (high - 0xd800) * 0x400 + (low - 0xdc00)) as char] + Characters(s[2..])
    else [s[0] as char] + Characters(s[1..])
  }

  lemma {:induction false} CharactersEncode(s: Text)
    requires !LoneSurrogate(s)
    ensures Utf16(Characters(s)) == s
  {
    if s != [] {
      var rest := if High(s[0]) then s[2..] else s[1..];
      CharactersEncode(rest);
      assert Characters(s)[1..] == Characters(rest);
      if High(s[0]) {
        assert s == [s[0], s[1]] + s[2..];
      }
    }
  }

  lemma {:induction false} EncodedHasNoLone(t: string)
    ensures !LoneSurrogate(Utf16(t))
  {
    if t != "" {
      var s := Utf16(t);
      EncodedHasNoLone(t[1..]);
      if t[0] as int < 0x1_0000 {
        assert s[1..] == Utf16(t[1..]);
      } else {
        assert s[2..] == Utf16(t[1..]);
      }
    }
  }

  /** The surrogate check finds exactly the texts that encode no characters. */
  lemma LoneSurrogateExactly(s: Text)
    ensures LoneSurrogate(s) <==> forall t: string :: Utf16(t) != s
  {
    if !LoneSurrogate(s) {
      CharactersEncode(s);
    }
    forall t: string ensures Utf16(t) == s ==> !LoneSurrogate(s) {
      EncodedHasNoLone(t);
    }
  }
}
