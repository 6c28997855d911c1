/** The CMS content bound (bounded-json-payload.validator.ts). */
module PayloadBounds {
  import opened Outcomes
  import opened JsonValues
  import opened DepthGuards
  import opened Canonical

  const MAX_JSON_BYTES := 100_000
  const MAX_JSON_DEPTH := 20

  /** Buffer.byteLength(text, 'utf8'). */
  function Utf8Length(t: Text): nat {
    if t == [] then 0
    else if StartsPair(t) then 4 + Utf8Length(t[2..])
    else (if t[0] < 0x80 then 1 else if t[0] < 0x800 then 2 else 3) + Utf8Length(t[1..])
  }

  /** RFC 3629, section 3: one byte up to U+007F, two up to U+07FF, three for other units, four for a
      surrogate pair; and the length of a text is that of its parts, where no pair is split. */
  lemma {:induction false} Utf8Exact(s: Text, t: Text)
    requires s != [] && t != [] ==> !(HighSurrogate(s[|s| - 1]) && LowSurrogate(t[0]))
    ensures Utf8Length(s + t) == Utf8Length(s) + Utf8Length(t)
    ensures |s| == 1 ==> Utf8Length(s) == if s[0] <= 0x7F then 1 else if s[0] <= 0x7FF then 2 else 3
    ensures |s| == 2 && 0xD800 <= s[0] < 0xDC00 <= s[1] < 0xE000 ==> Utf8Length(s) == 4
  {
    if s == [] {
      assert s + t == t;
    } else if StartsPair(s) {
      assert (s + t)[2..] == s[2..] + t;
      Utf8Exact(s[2..], t);
    } else {
      assert (s + t)[1..] == s[1..] + t;
      Utf8Exact(s[1..], t);
    }
  }

  predicate Validate(value: JsValue) {
    if !Container(value) then false
    else if JsonDepth(value) > MAX_JSON_DEPTH then false
    else
      match CanonicalJson(value, DEFAULT_MAX_DEPTH)
      case Failure(_) => false
      case Success(text) => Utf8Length(text) <= MAX_JSON_BYTES
  }

  /** What the message promises: valid JSON, at most 20 levels, at most 100000 bytes. */
  ghost predicate Documented(value: JsValue) {
    && Container(value) && IsJson(value) && JsonDepth(value) <= MAX_JSON_DEPTH
    && match Serialize(value, JsonDepth(value))
       case Success(text) => Utf8Length(text) <= MAX_JSON_BYTES
       case Failure(_) => false
  }

  /** More remaining depth never changes what is printed. */
  lemma {:induction false} MoreDepthPrintsAlike(v: JsValue, less: nat, more: nat)
    requires less <= more && Serialize(v, less).Success?
    ensures Serialize(v, more) == Serialize(v, less)
    decreases less, 0, 1
  {
    match v
    case Array(items) => MoreDepthItems(items, less - 1, more - 1);
    case Object(fields) => MoreDepthFields(SortByKey(fields), less - 1, more - 1);
    case _ =>
  }

  lemma {:induction false} MoreDepthItems(items: seq<JsValue>, less: nat, more: nat)
    requires less <= more && SerializeItems(items, less).Success?
    ensures SerializeItems(items, more) == SerializeItems(items, less)
    decreases less, 1, |items|
  {
    if items != [] {
      MoreDepthPrintsAlike(items[0], less, more);
      MoreDepthItems(items[1..], less, more);
    }
  }

  lemma {:induction false} MoreDepthFields(fields: seq<Field>, less: nat, more: nat)
    requires less <= more && SerializeFields(fields, less).Success?
    ensures SerializeFields(fields, more) == SerializeFields(fields, less)
    decreases less, 1, |fields|
  {
    if fields != [] {
      MoreDepthPrintsAlike(fields[0].value, less, more);
      MoreDepthFields(fields[1..], less, more);
    }
  }

  lemma DocumentedPrints(value: JsValue)
    requires IsJson(value)
    ensures Serialize(value, JsonDepth(value)).Success?
  {
    SerializeSucceeds(value, JsonDepth(value));
  }

  /** The validator keeps its promise exactly for payloads of at most 16 levels: the canonical
      printer's own default bound applies before the documented 20. */
  lemma ValidateExact(value: JsValue)
    ensures Validate(value) <==> Documented(value) && JsonDepth(value) <= DEFAULT_MAX_DEPTH
  {
    CanonicalJsonSucceeds(value, DEFAULT_MAX_DEPTH);
    if IsJson(value) && JsonDepth(value) <= DEFAULT_MAX_DEPTH {
      DocumentedPrints(value);
      MoreDepthPrintsAlike(value, JsonDepth(value), DEFAULT_MAX_DEPTH);
    }
  }

  function NestedArrays(levels: nat): JsValue {
    if levels == 0 then Null else Array([NestedArrays(levels - 1)])
  }

  lemma {:induction false} NestedArraysShape(levels: nat)
    ensures IsJson(NestedArrays(levels)) && JsonDepth(NestedArrays(levels)) == levels
    ensures Serialize(NestedArrays(levels), levels).Success?
    ensures var t := Serialize(NestedArrays(levels), levels).value;
      |t| == 4 + 2 * levels && forall i | 0 <= i < |t| :: t[i] < 0x80
  {
    if levels > 0 {
      NestedArraysShape(levels - 1);
      var inner := NestedArrays(levels - 1);
      var t := Serialize(inner, levels - 1).value;
      assert [inner][1..] == [];
      assert SerializeItems([inner], levels - 1) == Success([t] + []);
      assert Join([t]) == t;
      assert DeepestItem([inner]) == JsonDepth(inner);
    }
  }

  lemma {:induction false} AsciiLength(t: Text)
    requires forall i | 0 <= i < |t| :: t[i] < 0x80
    ensures Utf8Length(t) == |t|
  {
    if t != [] { AsciiLength(t[1..]); }
  }

  /** Seventeen nested arrays are within the documented bounds and are rejected. */
  lemma DocumentedDepthRejected()
    ensures Documented(NestedArrays(17)) && !Validate(NestedArrays(17))
  {
    NestedArraysShape(17);
    AsciiLength(Serialize(NestedArrays(17), 17).value);
    ValidateExact(NestedArrays(17));
  }
}
