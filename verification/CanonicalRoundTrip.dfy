/** Reading canonical JSON back (RFC 8259, sections 4 to 7, without insignificant whitespace):
    the printed text determines the value up to object key order. */
module CanonicalRoundTrip {
  import opened Outcomes
  import opened Sequences
  import opened JsonValues
  import opened Canonical

  // ----- The value with every object's keys sorted -----

  function Normal(v: JsValue): JsValue {
    match v
    case Array(items) => Array(NormalItems(items))
    case Object(fields) => Object(SortByKey(NormalFields(fields)))
    case _ => v
  }

  function NormalItems(items: seq<JsValue>): (normal: seq<JsValue>)
    ensures |normal| == |items|
  {
    if items == [] then [] else [Normal(items[0])] + NormalItems(items[1..])
  }

  function NormalFields(fields: seq<Field>): (normal: seq<Field>)
    ensures |normal| == |fields|
  {
    if fields == [] then [] else [Field(fields[0].key, Normal(fields[0].value))] + NormalFields(fields[1..])
  }

  lemma {:induction false} NormalItemAt(items: seq<JsValue>, i: nat)
    requires i < |items|
    ensures NormalItems(items)[i] == Normal(items[i])
  {
    if i > 0 { NormalItemAt(items[1..], i - 1); }
  }

  lemma {:induction false} NormalFieldAt(fields: seq<Field>, i: nat)
    requires i < |fields|
    ensures NormalFields(fields)[i] == Field(fields[i].key, Normal(fields[i].value))
  {
    if i > 0 { NormalFieldAt(fields[1..], i - 1); }
  }

  lemma {:induction false} InsertNormal(f: Field, fields: seq<Field>)
    ensures NormalFields(InsertByKey(f, fields))
         == InsertByKey(Field(f.key, Normal(f.value)), NormalFields(fields))
  {
    if fields == [] {
      assert [f] + fields == [f] && [f][1..] == [];
    } else if !Less(fields[0].key, f.key) {
      assert ([f] + fields)[1..] == fields;
    } else {
      InsertNormal(f, fields[1..]);
      var rest := InsertByKey(f, fields[1..]);
      assert ([fields[0]] + rest)[1..] == rest;
    }
  }

  lemma {:induction false} SortNormal(fields: seq<Field>)
    ensures NormalFields(SortByKey(fields)) == SortByKey(NormalFields(fields))
  {
    if fields != [] {
      SortNormal(fields[1..]);
      InsertNormal(fields[0], SortByKey(fields[1..]));
      assert NormalFields(fields)[1..] == NormalFields(fields[1..]);
    }
  }

  // ----- Equal normal forms -----

  lemma NormalKeys(fields: seq<Field>)
    ensures Keys(NormalFields(fields)) == Keys(fields)
  {
    forall i | 0 <= i < |fields| ensures NormalFields(fields)[i].key == fields[i].key { NormalFieldAt(fields, i); }
  }

  /** Two field lists with distinct keys sort alike exactly when they hold the same fields. */
  lemma SortedAlike(fs: seq<Field>, gs: seq<Field>)
    requires NoRepeats(Keys(fs)) && NoRepeats(Keys(gs)) && |fs| == |gs|
    ensures SortByKey(fs) == SortByKey(gs) <==> Elements(fs) <= Elements(gs)
  {
    SortElements(fs);
    SortElements(gs);
    if Elements(fs) <= Elements(gs) {
      DistinctFields(fs);
      DistinctFields(gs);
      SameElements(fs, gs);
      SortSorts(fs);
      SortSorts(gs);
      SortedUnique(SortByKey(fs), SortByKey(gs));
    }
  }

  lemma DistinctFields(fs: seq<Field>)
    requires NoRepeats(Keys(fs))
    ensures NoRepeats(fs)
  {
    forall i, j | 0 <= i < j < |fs| ensures fs[i] != fs[j] { assert Keys(fs)[i] != Keys(fs)[j]; }
  }

  /** Equal after sorting keys everywhere means equal up to key order. */
  lemma {:induction false} NormalExact(a: JsValue, b: JsValue)
    requires WellFormed(a) && WellFormed(b)
    ensures Normal(a) == Normal(b) <==> SameUpToKeyOrder(a, b)
    decreases a, 1
  {
    if a.Array? && b.Array? && |a.items| == |b.items| {
      NormalArrayExact(a, b);
    } else if a.Object? && b.Object? && |a.fields| == |b.fields| {
      NormalObjectExact(a, b);
    }
  }

  lemma {:induction false} NormalArrayExact(a: JsValue, b: JsValue)
    requires WellFormed(a) && WellFormed(b) && a.Array? && b.Array? && |a.items| == |b.items|
    ensures Normal(a) == Normal(b) <==> SameUpToKeyOrder(a, b)
    decreases a, 0
  {
    var xs, ys := NormalItems(a.items), NormalItems(b.items);
    forall i | 0 <= i < |a.items| ensures xs[i] == ys[i] <==> SameUpToKeyOrder(a.items[i], b.items[i]) {
      NormalExact(a.items[i], b.items[i]);
      NormalItemAt(a.items, i);
      NormalItemAt(b.items, i);
    }
    if SameUpToKeyOrder(a, b) {
      forall i | 0 <= i < |xs| ensures xs[i] == ys[i] { assert SameUpToKeyOrder(a.items[i], b.items[i]); }
      assert xs == ys;
    }
    if xs == ys {
      forall i | 0 <= i < |xs| ensures SameUpToKeyOrder(a.items[i], b.items[i]) { assert xs[i] == ys[i]; }
    }
  }

  lemma {:induction false} NormalObjectExact(a: JsValue, b: JsValue)
    requires WellFormed(a) && WellFormed(b) && a.Object? && b.Object? && |a.fields| == |b.fields|
    ensures Normal(a) == Normal(b) <==> SameUpToKeyOrder(a, b)
    decreases a, 0
  {
    var fs, gs := NormalFields(a.fields), NormalFields(b.fields);
    NormalKeys(a.fields);
    NormalKeys(b.fields);
    SortedAlike(fs, gs);
    forall i, j | 0 <= i < |fs| && 0 <= j < |gs|
      ensures fs[i] == gs[j] <==> SameField(a.fields[i], b.fields[j])
    {
      NormalExact(a.fields[i].value, b.fields[j].value);
      NormalFieldAt(a.fields, i);
      NormalFieldAt(b.fields, j);
    }
    SameFieldsExact(a.fields, b.fields, fs, gs);
    SameIsMatched(a, b);
  }

  lemma SameIsMatched(a: JsValue, b: JsValue)
    requires a.Object? && b.Object? && |a.fields| == |b.fields|
    ensures SameUpToKeyOrder(a, b) <==> FieldsMatched(a.fields, b.fields)
  {
    if SameUpToKeyOrder(a, b) {
      forall i | 0 <= i < |a.fields| ensures MatchedIn(a.fields[i], b.fields) {}
    }
    if FieldsMatched(a.fields, b.fields) {
      forall i | 0 <= i < |a.fields|
        ensures exists j :: 0 <= j < |b.fields| && SameField(a.fields[i], b.fields[j])
      {
        assert MatchedIn(a.fields[i], b.fields);
      }
    }
  }

  ghost predicate FieldsMatched(af: seq<Field>, bf: seq<Field>) {
    forall i | 0 <= i < |af| :: MatchedIn(af[i], bf)
  }

  ghost predicate MatchedIn(f: Field, fields: seq<Field>) {
    exists j :: 0 <= j < |fields| && SameField(f, fields[j])
  }

  lemma SameFieldsExact(af: seq<Field>, bf: seq<Field>, fs: seq<Field>, gs: seq<Field>)
    requires |af| == |fs| && |bf| == |gs|
    requires forall i, j | 0 <= i < |fs| && 0 <= j < |gs| :: fs[i] == gs[j] <==> SameField(af[i], bf[j])
    ensures Elements(fs) <= Elements(gs) <==> FieldsMatched(af, bf)
  {
    if Elements(fs) <= Elements(gs) {
      forall i | 0 <= i < |af| ensures MatchedIn(af[i], bf) {
        assert fs[i] in Elements(fs);
        assert fs[i] in Elements(gs);
        var j :| 0 <= j < |gs| && gs[j] == fs[i];
        assert SameField(af[i], bf[j]);
      }
      assert FieldsMatched(af, bf);
    }
    if FieldsMatched(af, bf) {
      forall f | f in Elements(fs) ensures f in Elements(gs) {
        var i :| 0 <= i < |fs| && fs[i] == f;
        assert MatchedIn(af[i], bf);
        var j :| 0 <= j < |bf| && SameField(af[i], bf[j]);
        assert gs[j] == f;
      }
      assert Elements(fs) <= Elements(gs);
    }
  }

  // ----- Reader -----

  function HexValue(u: CodeUnit): Option<nat> {
    if 0x30 <= u <= 0x39 then Some(u - 0x30)
    else if 0x61 <= u <= 0x66 then Some(u - 0x61 + 10)
    else if 0x41 <= u <= 0x46 then Some(u - 0x41 + 10)
    else None
  }

  function ReadHex(a: CodeUnit, b: CodeUnit, c: CodeUnit, d: CodeUnit): Option<CodeUnit> {
    match (HexValue(a), HexValue(b), HexValue(c), HexValue(d))
    case (Some(w), Some(x), Some(y), Some(z)) =>
      var u := 4096 * w + 256 * x + 16 * y + z;
      if u < 0x1_0000 then Some(u) else None
    case _ => None
  }

  function SimpleEscape(u: CodeUnit): Option<CodeUnit> {
    if u == QUOTE || u == BACKSLASH || u == 0x2F then Some(u)
    else if u == 0x62 then Some(8)
    else if u == 0x74 then Some(9)
    else if u == 0x6E then Some(10)
    else if u == 0x66 then Some(12)
    else if u == 0x72 then Some(13)
    else None
  }

  /** The rest of a string literal after its opening quote. */
  function ReadChars(t: Text): (r: Option<(Text, Text)>)
    ensures r.Some? ==> |r.value.1| < |t|
  {
    if t == [] || t[0] < 0x20 then None
    else if t[0] == QUOTE then Some(([], t[1..]))
    else if t[0] != BACKSLASH then Prepend(t[0], ReadChars(t[1..]))
    else if |t| < 2 then None
    else if t[1] != 0x75 then
      var u := SimpleEscape(t[1]);
      if u.None? then None else Prepend(u.value, ReadChars(t[2..]))
    else if |t| < 6 then None
    else
      var u := ReadHex(t[2], t[3], t[4], t[5]);
      if u.None? then None else Prepend(u.value, ReadChars(t[6..]))
  }

  function Prepend(u: CodeUnit, r: Option<(Text, Text)>): Option<(Text, Text)> {
    if r.None? then None else Some(([u] + r.value.0, r.value.1))
  }

  function NumberLength(t: Text): (n: nat)
    ensures n <= |t|
    ensures t != [] && NumberUnit(t[0]) ==> n > 0
  {
    if t == [] || !NumberUnit(t[0]) then 0 else 1 + NumberLength(t[1..])
  }

  function ReadValue(t: Text): (r: Option<(JsValue, Text)>)
    ensures r.Some? ==> |r.value.1| < |t|
    decreases |t|, 0
  {
    if t == [] then None
    else if t[0] == QUOTE then
      var s := ReadChars(t[1..]);
      if s.None? then None else Some((Str(s.value.0), s.value.1))
    else if NumberUnit(t[0]) then Some((Number(t[..NumberLength(t)]), t[NumberLength(t)..]))
    else if t[0] == OPEN_BRACKET then
      if |t| > 1 && t[1] == CLOSE_BRACKET then Some((Array([]), t[2..])) else
      var items := ReadItems(t[1..]);
      if items.None? then None else Some((Array(items.value.0), items.value.1))
    else if t[0] == OPEN_BRACE then
      if |t| > 1 && t[1] == CLOSE_BRACE then Some((Object([]), t[2..])) else
      var fields := ReadFields(t[1..]);
      if fields.None? then None else Some((Object(fields.value.0), fields.value.1))
    else if NULL_TEXT <= t then Some((Null, t[4..]))
    else if TRUE_TEXT <= t then Some((Bool(true), t[4..]))
    else if FALSE_TEXT <= t then Some((Bool(false), t[5..]))
    else None
  }

  /** One or more comma-separated items and the closing bracket. */
  function ReadItems(t: Text): (r: Option<(seq<JsValue>, Text)>)
    ensures r.Some? ==> |r.value.1| < |t|
    decreases |t|, 1
  {
    var first := ReadValue(t);
    if first.None? then None else
    var (v, after) := first.value;
    if after == [] then None
    else if after[0] == CLOSE_BRACKET then Some(([v], after[1..]))
    else if after[0] != COMMA then None else
    var more := ReadItems(after[1..]);
    if more.None? then None else Some(([v] + more.value.0, more.value.1))
  }

  function ReadFields(t: Text): (r: Option<(seq<Field>, Text)>)
    ensures r.Some? ==> |r.value.1| < |t|
    decreases |t|, 1
  {
    var first := ReadField(t);
    if first.None? then None else
    var (f, after) := first.value;
    if after == [] then None
    else if after[0] == CLOSE_BRACE then Some(([f], after[1..]))
    else if after[0] != COMMA then None else
    var more := ReadFields(after[1..]);
    if more.None? then None else Some(([f] + more.value.0, more.value.1))
  }

  function ReadField(t: Text): (r: Option<(Field, Text)>)
    ensures r.Some? ==> |r.value.1| < |t|
    decreases |t|, 0
  {
    if t == [] || t[0] != QUOTE then None else
    var key := ReadChars(t[1..]);
    if key.None? || key.value.1 == [] || key.value.1[0] != COLON then None else
    var v := ReadValue(key.value.1[1..]);
    if v.None? then None else Some((Field(key.value.0, v.value.0), v.value.1))
  }

  // ----- Strings read back -----

  lemma HexRoundTrip(u: CodeUnit)
    ensures ReadHex(HexDigit(u / 4096), HexDigit(u / 256 % 16), HexDigit(u / 16 % 16), HexDigit(u % 16)) == Some(u)
  {
    hide HexDigit, HexValue;
    var a, b := u / 16, u / 256;
    assert a / 16 == b && b / 16 == u / 4096;
    assert u == 16 * a + u % 16 && a == 16 * b + a % 16 && b == 16 * (b / 16) + b % 16;
    HexDigitValue(u / 4096);
    HexDigitValue(u / 256 % 16);
    HexDigitValue(u / 16 % 16);
    HexDigitValue(u % 16);
  }

  lemma HexDigitValue(n: int)
    requires 0 <= n < 16
    ensures HexValue(HexDigit(n)) == Some(n)
  {
  }

  lemma UnitReadsBack(u: CodeUnit, tail: Text)
    ensures ReadChars(EscapeUnit(u) + tail) == Prepend(u, ReadChars(tail))
  {
    hide HexDigit, ReadHex;
    HexRoundTrip(u);
    var t := EscapeUnit(u) + tail;
    if |EscapeUnit(u)| == 1 {
      assert t[1..] == tail;
    } else if |EscapeUnit(u)| == 2 {
      assert t[2..] == tail;
    } else {
      assert EscapeUnit(u) == HexEscape(u) && t[6..] == tail;
    }
  }

  lemma RawUnitReadsBack(u: CodeUnit, tail: Text)
    requires u >= 0x20 && u != QUOTE && u != BACKSLASH
    ensures ReadChars([u] + tail) == Prepend(u, ReadChars(tail))
  {
    assert ([u] + tail)[1..] == tail;
  }

  lemma {:induction false} CharsReadBack(s: Text, rest: Text)
    ensures ReadChars(Escape(s) + [QUOTE] + rest) == Some((s, rest))
  {
    hide EscapeUnit, ReadChars;
    if s == [] {
      EndReadsBack(rest);
      assert Escape(s) + [QUOTE] + rest == [QUOTE] + rest;
    } else if StartsPair(s) {
      CharsReadBack(s[2..], rest);
      var tail := Escape(s[2..]) + [QUOTE] + rest;
      RawUnitReadsBack(s[1], tail);
      RawUnitReadsBack(s[0], [s[1]] + tail);
      assert Escape(s) + [QUOTE] + rest == [s[0]] + ([s[1]] + tail);
      assert s == [s[0]] + ([s[1]] + s[2..]);
    } else {
      CharsReadBack(s[1..], rest);
      var tail := Escape(s[1..]) + [QUOTE] + rest;
      UnitReadsBack(s[0], tail);
      assert Escape(s) + [QUOTE] + rest == EscapeUnit(s[0]) + tail;
      assert s == [s[0]] + s[1..];
    }
  }

  lemma EndReadsBack(rest: Text)
    ensures ReadChars([QUOTE] + rest) == Some(([], rest))
  {
    assert ([QUOTE] + rest)[1..] == rest;
  }

  lemma QuoteReadsBack(s: Text, rest: Text)
    ensures (Quote(s) + rest)[0] == QUOTE
    ensures ReadChars((Quote(s) + rest)[1..]) == Some((s, rest))
  {
    CharsReadBack(s, rest);
    assert (Quote(s) + rest)[1..] == Escape(s) + [QUOTE] + rest;
  }

  // ----- Values read back -----

  /** What may follow a value: anything that cannot extend a number. */
  predicate Delimited(rest: Text) { rest == [] || !NumberUnit(rest[0]) }

  lemma {:induction false} NumberReadsBack(token: Text, rest: Text)
    requires forall i | 0 <= i < |token| :: NumberUnit(token[i])
    requires Delimited(rest)
    ensures NumberLength(token + rest) == |token|
  {
    if token == [] {
      assert token + rest == rest;
    } else {
      NumberReadsBack(token[1..], rest);
      assert (token + rest)[1..] == token[1..] + rest;
    }
  }

  /** A printed value is not mistaken for a closing bracket. */
  lemma TextHead(v: JsValue, remaining: nat)
    requires WellFormed(v) && Serialize(v, remaining).Success?
    ensures var t := Serialize(v, remaining).value; t != [] && t[0] != CLOSE_BRACKET
  {
    hide Quote, Join, SortByKey;
  }

  lemma SplitJoin(texts: seq<Text>)
    requires texts != []
    ensures |texts| == 1 ==> Join(texts) == texts[0]
    ensures |texts| > 1 ==> Join(texts) == texts[0] + [COMMA] + Join(texts[1..])
  {
  }

  /** Printing then reading gives back the value with sorted keys. */
  lemma {:induction false} ValueReadsBack(v: JsValue, remaining: nat, rest: Text)
    requires WellFormed(v) && Serialize(v, remaining).Success? && Delimited(rest)
    ensures ReadValue(Serialize(v, remaining).value + rest) == Some((Normal(v), rest))
    decreases remaining, 0, 1
  {
    var text := Serialize(v, remaining).value;
    match v
    case Null => assert (text + rest)[4..] == rest;
    case Bool(_) => assert (text + rest)[|text|..] == rest;
    case Number(token) => NumberReadsBack(token, rest);
      assert (text + rest)[..|token|] == token && (text + rest)[|token|..] == rest;
    case Str(s) => QuoteReadsBack(s, rest);
    case Array(items) => ArrayReadsBack(items, remaining, rest);
    case Object(fields) => ObjectReadsBack(fields, remaining, rest);
  }

  lemma {:induction false} ArrayReadsBack(items: seq<JsValue>, remaining: nat, rest: Text)
    requires WellFormed(Array(items)) && Serialize(Array(items), remaining).Success? && Delimited(rest)
    ensures ReadValue(Serialize(Array(items), remaining).value + rest) == Some((Normal(Array(items)), rest))
    decreases remaining, 0, 0
  {
    hide ReadItems, ReadChars, Join;
    var texts := SerializeItems(items, remaining - 1).value;
    var t := Serialize(Array(items), remaining).value + rest;
    if items == [] {
      EmptyJoin();
      assert t == [OPEN_BRACKET, CLOSE_BRACKET] + rest && t[2..] == rest;
    } else {
      ItemsReadBack(items, remaining - 1, rest);
      var body := Join(texts) + [CLOSE_BRACKET] + rest;
      assert t[1..] == body;
      ItemsHead(items, remaining - 1);
      assert t[1] == body[0];
    }
  }

  lemma EmptyJoin()
    ensures Join([]) == []
  {
  }

  lemma ItemsHead(items: seq<JsValue>, remaining: nat)
    requires items != [] && SerializeItems(items, remaining).Success?
    requires forall i | 0 <= i < |items| :: WellFormed(items[i])
    ensures var t := Join(SerializeItems(items, remaining).value); t != [] && t[0] != CLOSE_BRACKET
  {
    hide Serialize;
    TextHead(items[0], remaining);
    SplitJoin(SerializeItems(items, remaining).value);
  }

  lemma {:induction false} ItemsReadBack(items: seq<JsValue>, remaining: nat, rest: Text)
    requires items != [] && SerializeItems(items, remaining).Success?
    requires forall i | 0 <= i < |items| :: WellFormed(items[i])
    ensures ReadItems(Join(SerializeItems(items, remaining).value) + [CLOSE_BRACKET] + rest)
         == Some((NormalItems(items), rest))
    decreases remaining, 1, |items|
  {
    hide ReadValue, Serialize, Join, Normal;
    var texts := SerializeItems(items, remaining).value;
    var t := Join(texts) + [CLOSE_BRACKET] + rest;
    SplitJoin(texts);
    if |items| == 1 {
      var after := [CLOSE_BRACKET] + rest;
      ValueReadsBack(items[0], remaining, after);
      assert t == texts[0] + after && after[1..] == rest;
      assert NormalItems(items) == [Normal(items[0])];
    } else {
      var more := Join(texts[1..]) + [CLOSE_BRACKET] + rest;
      var after := [COMMA] + more;
      ItemsReadBack(items[1..], remaining, rest);
      ValueReadsBack(items[0], remaining, after);
      assert SerializeItems(items[1..], remaining).value == texts[1..];
      assert t == texts[0] + after && after[1..] == more;
    }
  }

  lemma {:induction false} ObjectReadsBack(fields: seq<Field>, remaining: nat, rest: Text)
    requires WellFormed(Object(fields)) && Serialize(Object(fields), remaining).Success? && Delimited(rest)
    ensures ReadValue(Serialize(Object(fields), remaining).value + rest) == Some((Normal(Object(fields)), rest))
    decreases remaining, 0, 0
  {
    hide ReadFields, ReadChars, Join, NormalFields, SortByKey;
    var sorted := SortByKey(fields);
    var texts := SerializeFields(sorted, remaining - 1).value;
    var t := Serialize(Object(fields), remaining).value + rest;
    SortNormal(fields);
    var body := Join(texts) + [CLOSE_BRACE] + rest;
    assert t[1..] == body;
    if fields == [] {
      EmptyJoin();
      assert t[1..] == [CLOSE_BRACE] + rest && t[2..] == rest;
    } else {
      SortedWellFormed(fields);
      FieldsReadBack(sorted, remaining - 1, rest);
      FieldsHead(sorted, remaining - 1);
      assert t[1] == body[0];
    }
  }

  lemma SortedWellFormed(fields: seq<Field>)
    requires forall i | 0 <= i < |fields| :: WellFormed(fields[i].value)
    ensures forall i | 0 <= i < |fields| :: WellFormed(SortByKey(fields)[i].value)
  {
    SortElements(fields);
    var sorted := SortByKey(fields);
    forall i | 0 <= i < |fields| ensures WellFormed(sorted[i].value) {
      assert sorted[i] in Elements(sorted);
    }
  }

  lemma FieldsHead(fields: seq<Field>, remaining: nat)
    requires fields != [] && SerializeFields(fields, remaining).Success?
    ensures var t := Join(SerializeFields(fields, remaining).value); t != [] && t[0] == QUOTE
  {
    hide Serialize;
    SplitJoin(SerializeFields(fields, remaining).value);
  }

  lemma FieldReadsBack(f: Field, remaining: nat, rest: Text)
    requires WellFormed(f.value) && Serialize(f.value, remaining).Success? && Delimited(rest)
    ensures ReadField(Quote(f.key) + [COLON] + Serialize(f.value, remaining).value + rest)
         == Some((Field(f.key, Normal(f.value)), rest))
    decreases remaining, 0, 2
  {
    hide ReadValue, Serialize, Normal, ReadChars, Quote;
    var value := Serialize(f.value, remaining).value + rest;
    QuoteReadsBack(f.key, [COLON] + value);
    ValueReadsBack(f.value, remaining, rest);
    var t := Quote(f.key) + [COLON] + Serialize(f.value, remaining).value + rest;
    assert t == Quote(f.key) + ([COLON] + value);
    assert ([COLON] + value)[1..] == value;
  }

  lemma {:induction false} FieldsReadBack(fields: seq<Field>, remaining: nat, rest: Text)
    requires fields != [] && SerializeFields(fields, remaining).Success?
    requires forall i | 0 <= i < |fields| :: WellFormed(fields[i].value)
    ensures ReadFields(Join(SerializeFields(fields, remaining).value) + [CLOSE_BRACE] + rest)
         == Some((NormalFields(fields), rest))
    decreases remaining, 1, |fields|
  {
    hide ReadField, Serialize, Join, Normal, Quote;
    var texts := SerializeFields(fields, remaining).value;
    var t := Join(texts) + [CLOSE_BRACE] + rest;
    SplitJoin(texts);
    assert texts[0] == Quote(fields[0].key) + [COLON] + Serialize(fields[0].value, remaining).value;
    if |fields| == 1 {
      var after := [CLOSE_BRACE] + rest;
      FieldReadsBack(fields[0], remaining, after);
      assert t == texts[0] + after && after[1..] == rest;
      assert NormalFields(fields) == [Field(fields[0].key, Normal(fields[0].value))];
    } else {
      var more := Join(texts[1..]) + [CLOSE_BRACE] + rest;
      var after := [COMMA] + more;
      FieldsReadBack(fields[1..], remaining, rest);
      FieldReadsBack(fields[0], remaining, after);
      assert SerializeFields(fields[1..], remaining).value == texts[1..];
      assert t == texts[0] + after && after[1..] == more;
    }
  }

  // ----- Printing determines the value, and nothing more -----

  lemma {:induction false} NormalPrintsAlike(v: JsValue, remaining: nat)
    requires WellFormed(v)
    ensures Serialize(Normal(v), remaining) == Serialize(v, remaining)
    decreases remaining, 0, 1
  {
    match v
    case Array(items) =>
      if remaining > 0 { NormalItemsPrintAlike(items, remaining - 1); }
    case Object(fields) =>
      if remaining > 0 {
        SortedWellFormed(fields);
        NormalFieldsPrintAlike(SortByKey(fields), remaining - 1);
        NormalSortsAlike(fields);
        hide SortByKey, NormalFields, SerializeFields, NoRepeats, Keys;
      }
    case _ =>
  }

  /** Sorting the normal form of an object's fields gives the normal form of its sorted fields. */
  lemma NormalSortsAlike(fields: seq<Field>)
    requires NoRepeats(Keys(fields))
    ensures SortByKey(SortByKey(NormalFields(fields))) == NormalFields(SortByKey(fields))
  {
    hide Normal, NormalFields, SortByKey, NoRepeats, KeySorted;
    SortNormal(fields);
    SortSorts(fields);
    NormalKeys(SortByKey(fields));
    SortIsStable(NormalFields(SortByKey(fields)));
  }

  lemma {:induction false} SortIsStable(fields: seq<Field>)
    requires KeySorted(fields)
    ensures SortByKey(fields) == fields
  {
    if fields != [] {
      SortIsStable(fields[1..]);
      if |fields| > 1 { LessTotal(fields[0].key, fields[1].key); }
      assert fields == [fields[0]] + fields[1..];
    }
  }

  lemma {:induction false} NormalItemsPrintAlike(items: seq<JsValue>, remaining: nat)
    requires forall i | 0 <= i < |items| :: WellFormed(items[i])
    ensures SerializeItems(NormalItems(items), remaining) == SerializeItems(items, remaining)
    decreases remaining, 1, |items|
  {
    hide Serialize, Normal;
    if items != [] {
      NormalPrintsAlike(items[0], remaining);
      NormalItemsPrintAlike(items[1..], remaining);
      assert NormalItems(items)[1..] == NormalItems(items[1..]);
    }
  }

  lemma {:induction false} NormalFieldsPrintAlike(fields: seq<Field>, remaining: nat)
    requires forall i | 0 <= i < |fields| :: WellFormed(fields[i].value)
    ensures SerializeFields(NormalFields(fields), remaining) == SerializeFields(fields, remaining)
    decreases remaining, 1, |fields|
  {
    hide Serialize, Normal;
    if fields != [] {
      NormalPrintsAlike(fields[0].value, remaining);
      NormalFieldsPrintAlike(fields[1..], remaining);
      assert NormalFields(fields)[1..] == NormalFields(fields[1..]);
      NormalUndefined(fields[0].value);
    }
  }

  lemma NormalUndefined(v: JsValue)
    ensures Normal(v).Undefined? <==> v.Undefined?
  {
  }

  /** The law deduplication and publish integrity rest on: two values print alike exactly when
      they are the same JSON value up to object key order. */
  lemma CanonicalJsonInjective(a: JsValue, b: JsValue, maxDepth: int)
    requires WellFormed(a) && WellFormed(b)
    requires CanonicalJson(a, maxDepth).Success? && CanonicalJson(b, maxDepth).Success?
    ensures CanonicalJson(a, maxDepth) == CanonicalJson(b, maxDepth) <==> SameUpToKeyOrder(a, b)
  {
    hide Serialize, Normal, ReadValue;
    var ta, tb := Serialize(a, maxDepth).value, Serialize(b, maxDepth).value;
    assert ta + [] == ta && tb + [] == tb;
    ValueReadsBack(a, maxDepth, []);
    ValueReadsBack(b, maxDepth, []);
    NormalExact(a, b);
    NormalPrintsAlike(a, maxDepth);
    NormalPrintsAlike(b, maxDepth);
  }

  /** Reading a canonical text back gives the key-sorted value and uses up the whole text. */
  lemma CanonicalJsonReadsBack(v: JsValue, maxDepth: int)
    requires WellFormed(v) && CanonicalJson(v, maxDepth).Success?
    ensures ReadValue(CanonicalJson(v, maxDepth).value) == Some((Normal(v), []))
  {
    ValueReadsBack(v, maxDepth, []);
    assert CanonicalJson(v, maxDepth).value + [] == CanonicalJson(v, maxDepth).value;
  }
}
