/** What canonicalJson prints, told by its own grammar: RFC 8785, section 3.2, over the string
    quoting of JSON.stringify (ECMA-262, QuoteJSONString). */
module CanonicalSpelling {
  import opened Outcomes
  import opened Sequences
  import opened JsonValues
  import Canonical
  import CanonicalRoundTrip

  /** The code units of an ASCII literal. */
  function Units(s: string): (t: Text)
    requires forall i | 0 <= i < |s| :: s[i] < '\U{80}'
    ensures |t| == |s|
  {
    seq(|s|, i requires 0 <= i < |s| => s[i] as int)
  }

  function Flat(pieces: seq<Text>): Text {
    if pieces == [] then [] else pieces[0] + Flat(pieces[1..])
  }

  function Commas(parts: seq<Text>): Text {
    if parts == [] then []
    else if |parts| == 1 then parts[0]
    else Commas(parts[..|parts| - 1]) + Units(",") + parts[|parts| - 1]
  }

  // ----- Strings -----

  predicate High(u: CodeUnit) { 0xD800 <= u < 0xDC00 }

  predicate Low(u: CodeUnit) { 0xDC00 <= u < 0xE000 }

  /** The unit is one half of a surrogate pair. */
  predicate Paired(s: Text, i: nat)
    requires i < |s|
  {
    || (High(s[i]) && i + 1 < |s| && Low(s[i + 1]))
    || (Low(s[i]) && i > 0 && High(s[i - 1]))
  }

  function Digit(n: int): CodeUnit
    requires 0 <= n < 16
  {
    Units("0123456789abcdef")[n]
  }

  /** How one unit of a string prints. */
  function Piece(s: Text, i: nat): Text
    requires i < |s|
  {
    var u := s[i];
    if u == '\"' as int then Units("\\\"")
    else if u == '\\' as int then Units("\\\\")
    else if u == 0x08 then Units("\\b")
    else if u == '\t' as int then Units("\\t")
    else if u == '\n' as int then Units("\\n")
    else if u == 0x0C then Units("\\f")
    else if u == '\r' as int then Units("\\r")
    else if u < 0x20 || ((High(u) || Low(u)) && !Paired(s, i)) then
      Units("\\u") + [Digit(u / 4096), Digit(u / 256 % 16), Digit(u / 16 % 16), Digit(u % 16)]
    else [u]
  }

  function Pieces(s: Text, from: nat): (pieces: seq<Text>)
    requires from <= |s|
    ensures |pieces| == |s| - from && forall k | 0 <= k < |s| - from :: pieces[k] == Piece(s, from + k)
  {
    seq(|s| - from, i requires 0 <= i < |s| - from => Piece(s, from + i))
  }

  function Quoted(s: Text): Text { Units("\"") + Flat(Pieces(s, 0)) + Units("\"") }

  lemma DigitExact(n: int)
    requires 0 <= n < 16
    ensures Canonical.HexDigit(n) == Digit(n)
  {
  }

  lemma HexEscapeExact(u: CodeUnit)
    ensures Canonical.HexEscape(u)
      == Units("\\u") + [Digit(u / 4096), Digit(u / 256 % 16), Digit(u / 16 % 16), Digit(u % 16)]
  {
    DigitExact(u / 4096);
    DigitExact(u / 256 % 16);
    DigitExact(u / 16 % 16);
    DigitExact(u % 16);
    hide Canonical.HexDigit, Digit;
  }

  lemma EscapeUnitExact(s: Text, i: nat)
    requires i < |s| && !Paired(s, i)
    ensures Canonical.EscapeUnit(s[i]) == Piece(s, i)
  {
    HexEscapeExact(s[i]);
    hide Canonical.HexEscape, Digit;
  }

  lemma FlatHead(s: Text, from: nat)
    requires from < |s|
    ensures Flat(Pieces(s, from)) == Piece(s, from) + Flat(Pieces(s, from + 1))
  {
    hide Piece;
    assert Pieces(s, from)[1..] == Pieces(s, from + 1);
  }

  lemma EscapePair(rest: Text)
    requires Canonical.StartsPair(rest)
    ensures Canonical.Escape(rest) == [rest[0]] + ([rest[1]] + Canonical.Escape(rest[2..]))
  {
    assert rest[..2] == [rest[0]] + [rest[1]];
  }

  /** Reading from a place that does not split a pair. */
  lemma {:induction false} EscapeExact(s: Text, from: nat)
    requires from <= |s| && (0 < from < |s| && Low(s[from]) ==> !High(s[from - 1]))
    ensures Canonical.Escape(s[from..]) == Flat(Pieces(s, from))
    decreases |s| - from
  {
    hide Canonical.EscapeUnit, Piece, Pieces;
    var rest := s[from..];
    if from == |s| {
      assert rest == [];
    } else if Canonical.StartsPair(rest) {
      assert rest[2..] == s[from + 2..];
      EscapePair(rest);
      EscapeExact(s, from + 2);
      PairPieces(s, from);
      FlatHead(s, from);
      FlatHead(s, from + 1);
    } else {
      assert rest[1..] == s[from + 1..];
      assert |rest| >= 2 ==> rest[1] == s[from + 1];
      EscapeExact(s, from + 1);
      EscapeUnitExact(s, from);
      FlatHead(s, from);
    }
  }

  lemma PairPieces(s: Text, i: nat)
    requires i + 1 < |s| && High(s[i]) && Low(s[i + 1])
    ensures Piece(s, i) == [s[i]] && Piece(s, i + 1) == [s[i + 1]]
  {
  }

  lemma QuoteExact(s: Text)
    ensures Canonical.Quote(s) == Quoted(s)
  {
    EscapeExact(s, 0);
    assert s[0..] == s;
    assert [Canonical.QUOTE] == Units("\"");
  }

  // ----- Values -----

  /** The field printed at each place: every field once, in ascending UTF-16 order of the keys. */
  ghost predicate KeyOrder(order: seq<nat>, fields: seq<Field>) {
    && |order| == |fields| && (forall i | 0 <= i < |order| :: order[i] < |fields|)
    && (forall i, j | 0 <= i < j < |order| :: CodeUnitOrder(fields[order[i]].key, fields[order[j]].key))
  }

  function Bracketed(parts: seq<Text>): Text { Units("[") + Commas(parts) + Units("]") }

  function Braced(parts: seq<Text>): Text { Units("{") + Commas(parts) + Units("}") }

  /** The text is the canonical spelling of the value. */
  ghost predicate Spells(t: Text, v: JsValue)
    decreases v, 2
  {
    match v
    case Null => t == Units("null")
    case Bool(bit) => t == Units(if bit then "true" else "false")
    case Number(token) => t == token
    case Str(text) => t == Quoted(text)
    case Array(_) => exists parts: seq<Text> :: SpellsItems(parts, v) && t == Bracketed(parts)
    case Object(fields) => exists order: seq<nat>, parts: seq<Text> ::
      KeyOrder(order, fields) && SpellsFields(parts, order, v) && t == Braced(parts)
    case _ => false
  }

  ghost predicate SpellsItems(parts: seq<Text>, v: JsValue)
    requires v.Array?
    decreases v, 0
  {
    |parts| == |v.items| && forall i | 0 <= i < |v.items| :: Spells(parts[i], v.items[i])
  }

  ghost predicate SpellsFields(parts: seq<Text>, order: seq<nat>, v: JsValue)
    requires v.Object? && KeyOrder(order, v.fields)
    decreases v, 1
  {
    && |parts| == |order|
    && forall i | 0 <= i < |order| :: SpellsField(parts[i], v, order[i])
  }

  ghost predicate SpellsField(part: Text, v: JsValue, k: nat)
    requires v.Object? && k < |v.fields|
    decreases v, 0
  {
    exists w :: Spells(w, v.fields[k].value) && part == Quoted(v.fields[k].key) + Units(":") + w
  }

  lemma CommasHead(first: Text, rest: seq<Text>)
    requires rest != []
    ensures Commas([first] + rest) == first + Units(",") + Commas(rest)
    decreases |rest|
  {
    var parts := [first] + rest;
    var last := |rest| - 1;
    assert parts[..|parts| - 1] == [first] + rest[..last];
    if last > 0 {
      CommasHead(first, rest[..last]);
    } else {
      assert [first] + rest[..last] == [first];
    }
  }

  lemma {:induction false} JoinExact(texts: seq<Text>)
    ensures Canonical.Join(texts) == Commas(texts)
  {
    if |texts| > 1 {
      JoinExact(texts[1..]);
      CommasHead(texts[0], texts[1..]);
      assert texts == [texts[0]] + texts[1..];
      assert [Canonical.COMMA] == Units(",");
    }
  }

  ghost function PlaceOf(fields: seq<Field>, f: Field): (i: nat)
    requires f in fields
    ensures i < |fields| && fields[i] == f
  {
    var i :| 0 <= i < |fields| && fields[i] == f;
    i
  }

  /** The order in which canonicalJson prints the fields. */
  lemma PrintedOrder(fields: seq<Field>) returns (order: seq<nat>)
    requires NoRepeats(Keys(fields))
    ensures KeyOrder(order, fields)
    ensures forall i | 0 <= i < |order| :: fields[order[i]] == SortByKey(fields)[i]
  {
    hide Less, SortByKey, CodeUnitOrder;
    var sorted := SortByKey(fields);
    SortElements(fields);
    SortSorts(fields);
    forall i | 0 <= i < |sorted| ensures sorted[i] in fields { assert sorted[i] in Elements(sorted); }
    order := seq(|sorted|, i requires 0 <= i < |sorted| => PlaceOf(fields, sorted[i]));
    forall i, j | 0 <= i < j < |order| ensures CodeUnitOrder(fields[order[i]].key, fields[order[j]].key) {
      LessExact(sorted[i].key, sorted[j].key);
    }
  }

  lemma {:induction false} ValueSpelled(v: JsValue, remaining: nat)
    requires WellFormed(v) && Canonical.Serialize(v, remaining).Success?
    ensures Spells(Canonical.Serialize(v, remaining).value, v)
    decreases remaining, 0, 1
  {
    match v
    case Str(text) => QuoteExact(text);
    case Array(items) => ArraySpelled(v, remaining);
    case Object(fields) => ObjectSpelled(v, remaining);
    case _ =>
  }

  lemma {:induction false} ArraySpelled(v: JsValue, remaining: nat)
    requires v.Array? && WellFormed(v) && Canonical.Serialize(v, remaining).Success?
    ensures Spells(Canonical.Serialize(v, remaining).value, v)
    decreases remaining, 0, 0
  {
    hide Spells, Canonical.Join, Commas, Canonical.SerializeItems;
    ArrayText(v.items, remaining);
    ItemsSpelled(v.items, remaining - 1);
    hide Canonical.Serialize, WellFormed;
    ArrayFromParts(v, Canonical.SerializeItems(v.items, remaining - 1).value);
  }

  lemma ArrayText(items: seq<JsValue>, remaining: nat)
    requires Canonical.Serialize(Array(items), remaining).Success?
    ensures remaining > 0 && Canonical.SerializeItems(items, remaining - 1).Success?
    ensures Canonical.Serialize(Array(items), remaining).value
      == Bracketed(Canonical.SerializeItems(items, remaining - 1).value)
  {
    JoinExact(Canonical.SerializeItems(items, remaining - 1).value);
    hide Canonical.Join, Commas, Canonical.SerializeItems;
  }

  lemma ArrayFromParts(v: JsValue, parts: seq<Text>)
    requires v.Array? && SpellsItems(parts, v)
    ensures Spells(Bracketed(parts), v)
  {
    hide Commas;
  }

  lemma {:induction false} ItemsSpelled(items: seq<JsValue>, remaining: nat)
    requires Canonical.SerializeItems(items, remaining).Success?
    requires forall i | 0 <= i < |items| :: WellFormed(items[i])
    ensures var parts := Canonical.SerializeItems(items, remaining).value;
      |parts| == |items| && forall i | 0 <= i < |items| :: Spells(parts[i], items[i])
    decreases remaining, 1, |items|
  {
    hide Spells, Canonical.Serialize;
    if items != [] {
      ValueSpelled(items[0], remaining);
      ItemsSpelled(items[1..], remaining);
    }
  }

  ghost predicate FieldSpelled(part: Text, f: Field) {
    exists w :: Spells(w, f.value) && part == Quoted(f.key) + Units(":") + w
  }

  lemma {:induction false} ObjectSpelled(v: JsValue, remaining: nat)
    requires v.Object? && WellFormed(v) && Canonical.Serialize(v, remaining).Success?
    ensures Spells(Canonical.Serialize(v, remaining).value, v)
    decreases remaining, 0, 0
  {
    hide Spells, FieldSpelled, KeyOrder, SpellsFields, Canonical.Join, Commas, Canonical.SerializeFields;
    var sorted := SortByKey(v.fields);
    var parts := Canonical.SerializeFields(sorted, remaining - 1).value;
    ObjectText(v.fields, remaining);
    CanonicalRoundTrip.SortedWellFormed(v.fields);
    hide SortByKey;
    FieldsSpelled(sorted, remaining - 1);
    var order := PrintedOrder(v.fields);
    hide Canonical.Serialize, WellFormed;
    OrderLength(v.fields, order);
    FieldsInOrder(v, parts, order);
    ObjectFromParts(v, parts, order);
  }

  lemma ObjectText(fields: seq<Field>, remaining: nat)
    requires Canonical.Serialize(Object(fields), remaining).Success?
    ensures remaining > 0 && Canonical.SerializeFields(SortByKey(fields), remaining - 1).Success?
    ensures Canonical.Serialize(Object(fields), remaining).value
      == Braced(Canonical.SerializeFields(SortByKey(fields), remaining - 1).value)
  {
    JoinExact(Canonical.SerializeFields(SortByKey(fields), remaining - 1).value);
    hide Canonical.Join, Commas, SortByKey, Canonical.SerializeFields;
  }

  lemma OrderLength(fields: seq<Field>, order: seq<nat>)
    requires KeyOrder(order, fields)
    ensures |order| == |fields| && forall i | 0 <= i < |order| :: order[i] < |fields|
  {
    hide CodeUnitOrder;
  }

  lemma ObjectFromParts(v: JsValue, parts: seq<Text>, order: seq<nat>)
    requires v.Object? && KeyOrder(order, v.fields) && SpellsFields(parts, order, v)
    ensures Spells(Braced(parts), v)
  {
    hide Commas, CodeUnitOrder, SpellsField;
  }

  lemma FieldsInOrder(v: JsValue, parts: seq<Text>, order: seq<nat>)
    requires v.Object? && KeyOrder(order, v.fields) && |parts| == |SortByKey(v.fields)|
    requires forall i | 0 <= i < |order| :: v.fields[order[i]] == SortByKey(v.fields)[i]
    requires forall i | 0 <= i < |parts| :: FieldSpelled(parts[i], SortByKey(v.fields)[i])
    ensures SpellsFields(parts, order, v)
  {
    hide SortByKey, Quoted, Spells, CodeUnitOrder;
    forall i | 0 <= i < |order| ensures SpellsField(parts[i], v, order[i]) {
      assert FieldSpelled(parts[i], SortByKey(v.fields)[i]);
    }
  }

  lemma {:induction false} FieldsSpelled(fields: seq<Field>, remaining: nat)
    requires Canonical.SerializeFields(fields, remaining).Success?
    requires forall i | 0 <= i < |fields| :: WellFormed(fields[i].value)
    ensures var parts := Canonical.SerializeFields(fields, remaining).value;
      |parts| == |fields| && forall i | 0 <= i < |fields| :: FieldSpelled(parts[i], fields[i])
    decreases remaining, 1, |fields|
  {
    hide Spells, Canonical.Serialize, Canonical.Quote, Quoted;
    if fields != [] {
      ValueSpelled(fields[0].value, remaining);
      QuoteExact(fields[0].key);
      FieldsSpelled(fields[1..], remaining);
      var parts := Canonical.SerializeFields(fields, remaining).value;
      assert [Canonical.COLON] == Units(":");
      assert FieldSpelled(parts[0], fields[0]);
      assert parts[1..] == Canonical.SerializeFields(fields[1..], remaining).value;
      forall i | 0 <= i < |fields| ensures FieldSpelled(parts[i], fields[i]) {
        if i > 0 { assert FieldSpelled(parts[1..][i - 1], fields[1..][i - 1]); }
      }
    }
  }

  /** Whatever canonicalJson prints is the canonical spelling of the value. */
  lemma CanonicalJsonSpells(v: JsValue, maxDepth: int)
    requires WellFormed(v) && Canonical.CanonicalJson(v, maxDepth).Success?
    ensures Spells(Canonical.CanonicalJson(v, maxDepth).value, v)
  {
    ValueSpelled(v, maxDepth);
  }

  // ----- What a reader finds -----

  /** At every depth the keys of each object ascend by UTF-16 code units. */
  ghost predicate KeysAscend(v: JsValue) {
    match v
    case Array(items) => forall i | 0 <= i < |items| :: KeysAscend(items[i])
    case Object(fields) =>
      && (forall i, j | 0 <= i < j < |fields| :: CodeUnitOrder(fields[i].key, fields[j].key))
      && (forall i | 0 <= i < |fields| :: KeysAscend(fields[i].value))
    case _ => true
  }

  predicate SortedOf(f: Field, g: Field) {
    g == Field(f.key, CanonicalRoundTrip.Normal(f.value))
  }

  /** The sorted form of a field is one of the sorted fields. */
  lemma SortedFieldAt(fields: seq<Field>, i: nat)
    requires i < |fields|
    ensures exists j :: (
      0 <= j < |fields| && SortedOf(fields[i], SortByKey(CanonicalRoundTrip.NormalFields(fields))[j]))
  {
    hide SortByKey, CanonicalRoundTrip.Normal, CanonicalRoundTrip.NormalFields;
    var normal := CanonicalRoundTrip.NormalFields(fields);
    SortElements(normal);
    CanonicalRoundTrip.NormalFieldAt(fields, i);
    assert normal[i] in Elements(normal);
  }

  /** Every field of the sorted form comes from one of the object. */
  lemma SortedFieldFrom(fields: seq<Field>, j: nat)
    requires j < |fields|
    ensures exists i :: (
      0 <= i < |fields| && SortedOf(fields[i], SortByKey(CanonicalRoundTrip.NormalFields(fields))[j]))
  {
    hide SortByKey, CanonicalRoundTrip.Normal, CanonicalRoundTrip.NormalFields;
    var normal := CanonicalRoundTrip.NormalFields(fields);
    var sorted := SortByKey(normal);
    SortElements(normal);
    assert sorted[j] in Elements(sorted);
    var i :| 0 <= i < |normal| && normal[i] == sorted[j];
    CanonicalRoundTrip.NormalFieldAt(fields, i);
  }

  lemma {:induction false} NormalAscends(v: JsValue)
    requires WellFormed(v)
    ensures KeysAscend(CanonicalRoundTrip.Normal(v)) && SameUpToKeyOrder(v, CanonicalRoundTrip.Normal(v))
  {
    match v
    case Array(items) =>
      forall i | 0 <= i < |items|
        ensures KeysAscend(CanonicalRoundTrip.NormalItems(items)[i])
        ensures SameUpToKeyOrder(items[i], CanonicalRoundTrip.NormalItems(items)[i])
      {
        NormalAscends(items[i]);
        CanonicalRoundTrip.NormalItemAt(items, i);
      }
    case Object(fields) =>
      forall i | 0 <= i < |fields|
        ensures KeysAscend(CanonicalRoundTrip.Normal(fields[i].value))
        ensures SameUpToKeyOrder(fields[i].value, CanonicalRoundTrip.Normal(fields[i].value))
      {
        NormalAscends(fields[i].value);
      }
      ObjectAscends(fields);
    case _ =>
  }

  lemma ObjectAscends(fields: seq<Field>)
    requires NoRepeats(Keys(fields))
    requires forall i | 0 <= i < |fields| :: KeysAscend(CanonicalRoundTrip.Normal(fields[i].value))
    requires forall i | 0 <= i < |fields| ::
      SameUpToKeyOrder(fields[i].value, CanonicalRoundTrip.Normal(fields[i].value))
    ensures var u := CanonicalRoundTrip.Normal(Object(fields)); KeysAscend(u) && SameUpToKeyOrder(Object(fields), u)
  {
    hide SortByKey, CanonicalRoundTrip.NormalFields, CodeUnitOrder, Less;
    var sorted := SortByKey(CanonicalRoundTrip.NormalFields(fields));
    CanonicalRoundTrip.NormalKeys(fields);
    SortSorts(CanonicalRoundTrip.NormalFields(fields));
    forall i, j | 0 <= i < j < |sorted| ensures CodeUnitOrder(sorted[i].key, sorted[j].key) {
      LessExact(sorted[i].key, sorted[j].key);
    }
    forall j | 0 <= j < |sorted| ensures KeysAscend(sorted[j].value) { SortedFieldFrom(fields, j); }
    forall i | 0 <= i < |fields| ensures CanonicalRoundTrip.MatchedIn(fields[i], sorted) {
      SortedFieldAt(fields, i);
      var j :| 0 <= j < |sorted| && SortedOf(fields[i], sorted[j]);
      assert SameField(fields[i], sorted[j]);
    }
    CanonicalRoundTrip.SameIsMatched(Object(fields), Object(sorted));
    hide SameUpToKeyOrder;
  }

  /** A reader of the text finds the same value, the keys of every object in ascending order. */
  lemma ReaderFindsKeysAscending(v: JsValue, maxDepth: int)
    requires WellFormed(v) && Canonical.CanonicalJson(v, maxDepth).Success?
    ensures var read := CanonicalRoundTrip.ReadValue(Canonical.CanonicalJson(v, maxDepth).value);
      && read.Some? && read.value.1 == [] && KeysAscend(read.value.0) && SameUpToKeyOrder(v, read.value.0)
  {
    CanonicalRoundTrip.CanonicalJsonReadsBack(v, maxDepth);
    NormalAscends(v);
  }

  /** What cannot be printed, and the error each gives. */
  lemma FaultsNamed(v: JsValue, maxDepth: int)
    ensures maxDepth < 1 ==> Canonical.CanonicalJson(v, maxDepth) == Failure(Canonical.InvalidMaxDepth)
    ensures maxDepth >= 1 && v.NonFinite? ==> Canonical.CanonicalJson(v, maxDepth) == Failure(Canonical.NonFiniteNumber)
    ensures maxDepth >= 1 && v.ClassInstance? ==> Canonical.CanonicalJson(v, maxDepth) == Failure(Canonical.NotPlain)
    ensures maxDepth >= 1 && (v.Undefined? || v.Other?) ==>
      Canonical.CanonicalJson(v, maxDepth) == Failure(Canonical.Unsupported)
  {
  }
}
