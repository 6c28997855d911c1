/** Canonical JSON printing (canonical-json.ts), in the manner of RFC 8785, section 3.2.3. */
module Canonical {
  import opened Outcomes
  import opened Sequences
  import opened JsonValues
  import opened DepthGuards

  datatype JsonError = InvalidMaxDepth | DepthExceeded | NonFiniteNumber | NotPlain | UndefinedEntry | Unsupported

  const DEFAULT_MAX_DEPTH := 16

  // ----- String quoting (JSON.stringify) -----

  const QUOTE: CodeUnit := 0x22
  const BACKSLASH: CodeUnit := 0x5C
  const COMMA: CodeUnit := 0x2C
  const COLON: CodeUnit := 0x3A
  const OPEN_BRACKET: CodeUnit := 0x5B
  const CLOSE_BRACKET: CodeUnit := 0x5D
  const OPEN_BRACE: CodeUnit := 0x7B
  const CLOSE_BRACE: CodeUnit := 0x7D

  const NULL_TEXT: Text := [0x6E, 0x75, 0x6C, 0x6C]
  const TRUE_TEXT: Text := [0x74, 0x72, 0x75, 0x65]
  const FALSE_TEXT: Text := [0x66, 0x61, 0x6C, 0x73, 0x65]

  predicate HighSurrogate(u: CodeUnit) { 0xD800 <= u <= 0xDBFF }

  predicate LowSurrogate(u: CodeUnit) { 0xDC00 <= u <= 0xDFFF }

  predicate StartsPair(s: Text) { |s| >= 2 && HighSurrogate(s[0]) && LowSurrogate(s[1]) }

  function HexDigit(n: int): CodeUnit
    requires 0 <= n < 16
  {
    if n < 10 then 0x30 + n else 0x61 + n - 10
  }

  function HexEscape(u: CodeUnit): Text {
    [BACKSLASH, 0x75, HexDigit(u / 4096), HexDigit(u / 256 % 16), HexDigit(u / 16 % 16), HexDigit(u % 16)]
  }

  /** One code unit outside a surrogate pair; a lone surrogate is escaped. */
  function EscapeUnit(u: CodeUnit): (t: Text)
    ensures t != []
  {
    if u == QUOTE then [BACKSLASH, QUOTE]
    else if u == BACKSLASH then [BACKSLASH, BACKSLASH]
    else if u == 8 then [BACKSLASH, 0x62]
    else if u == 9 then [BACKSLASH, 0x74]
    else if u == 10 then [BACKSLASH, 0x6E]
    else if u == 12 then [BACKSLASH, 0x66]
    else if u == 13 then [BACKSLASH, 0x72]
    else if u < 0x20 || HighSurrogate(u) || LowSurrogate(u) then HexEscape(u)
    else [u]
  }

  function Escape(s: Text): Text {
    if s == [] then []
    else if StartsPair(s) then s[..2] + Escape(s[2..])
    else EscapeUnit(s[0]) + Escape(s[1..])
  }

  function Quote(s: Text): (t: Text)
    ensures |t| >= 2 && t[0] == QUOTE
  {
    [QUOTE] + Escape(s) + [QUOTE]
  }

  // ----- Serialization -----

  function CanonicalJson(value: JsValue, maxDepth: int): Result<Text, JsonError> {
    if maxDepth < 1 then Failure(InvalidMaxDepth) else Serialize(value, maxDepth)
  }

  function Serialize(value: JsValue, remaining: nat): Result<Text, JsonError>
    decreases remaining, 0, 1
  {
    match value
    case Null => Success(NULL_TEXT)
    case Bool(bit) => Success(if bit then TRUE_TEXT else FALSE_TEXT)
    case Number(token) => Success(token)
    case NonFinite => Failure(NonFiniteNumber)
    case Str(text) => Success(Quote(text))
    case Array(items) =>
      if remaining == 0 then Failure(DepthExceeded) else
      (match SerializeItems(items, remaining - 1)
       case Failure(e) => Failure(e)
       case Success(texts) => Success([OPEN_BRACKET] + Join(texts) + [CLOSE_BRACKET]))
    case Object(fields) =>
      if remaining == 0 then Failure(DepthExceeded) else
      (match SerializeFields(SortByKey(fields), remaining - 1)
       case Failure(e) => Failure(e)
       case Success(texts) => Success([OPEN_BRACE] + Join(texts) + [CLOSE_BRACE]))
    case ClassInstance(_) => if remaining == 0 then Failure(DepthExceeded) else Failure(NotPlain)
    case Undefined => Failure(Unsupported)
    case Other => Failure(Unsupported)
  }

  /** Array.map: the first item that throws decides the error. */
  function SerializeItems(items: seq<JsValue>, remaining: nat): (r: Result<seq<Text>, JsonError>)
    ensures r.Success? ==> |r.value| == |items|
    decreases remaining, 1, |items|
  {
    if items == [] then Success([]) else
    match Serialize(items[0], remaining)
    case Failure(e) => Failure(e)
    case Success(first) =>
      match SerializeItems(items[1..], remaining)
      case Failure(e) => Failure(e)
      case Success(rest) => Success([first] + rest)
  }

  function SerializeFields(fields: seq<Field>, remaining: nat): (r: Result<seq<Text>, JsonError>)
    ensures r.Success? ==> |r.value| == |fields|
    decreases remaining, 1, |fields|
  {
    if fields == [] then Success([])
    else if fields[0].value.Undefined? then Failure(UndefinedEntry) else
    match Serialize(fields[0].value, remaining)
    case Failure(e) => Failure(e)
    case Success(first) =>
      match SerializeFields(fields[1..], remaining)
      case Failure(e) => Failure(e)
      case Success(rest) => Success([Quote(fields[0].key) + [COLON] + first] + rest)
  }

  /** Array.join(','). */
  function Join(texts: seq<Text>): Text {
    if texts == [] then []
    else if |texts| == 1 then texts[0]
    else texts[0] + [COMMA] + Join(texts[1..])
  }

  // ----- Which values print -----

  lemma {:induction false} SerializeSucceeds(v: JsValue, remaining: nat)
    ensures Serialize(v, remaining).Success? <==> IsJson(v) && JsonDepth(v) <= remaining
    ensures IsJson(v) && JsonDepth(v) > remaining ==> Serialize(v, remaining) == Failure(DepthExceeded)
    decreases remaining, 0, 1
  {
    match v
    case Array(items) =>
      if remaining > 0 { ItemsSucceed(items, remaining - 1); }
    case Object(fields) =>
      if remaining > 0 {
        var sorted := SortByKey(fields);
        SortElements(fields);
        FieldsSucceed(sorted, remaining - 1);
        SameDeepest(fields, sorted);
        SameJson(fields, sorted);
      }
    case _ =>
  }

  ghost predicate JsonItems(items: seq<JsValue>) {
    forall i | 0 <= i < |items| :: IsJson(items[i])
  }

  ghost predicate JsonFields(fields: seq<Field>) {
    forall i | 0 <= i < |fields| :: IsJson(fields[i].value)
  }

  lemma {:induction false} ItemsSucceed(items: seq<JsValue>, remaining: nat)
    ensures SerializeItems(items, remaining).Success? <==> JsonItems(items) && DeepestItem(items) <= remaining
    ensures JsonItems(items) && DeepestItem(items) > remaining ==>
      SerializeItems(items, remaining) == Failure(DepthExceeded)
    decreases remaining, 1, |items|
  {
    if items != [] {
      SerializeSucceeds(items[0], remaining);
      ItemsSucceed(items[1..], remaining);
      assert JsonItems(items) <==> IsJson(items[0]) && JsonItems(items[1..]) by {
        if IsJson(items[0]) && JsonItems(items[1..]) {
          forall i | 0 <= i < |items| ensures IsJson(items[i]) {
            if i > 0 { assert items[i] == items[1..][i - 1]; }
          }
        }
      }
    }
  }

  lemma {:induction false} FieldsSucceed(fields: seq<Field>, remaining: nat)
    ensures SerializeFields(fields, remaining).Success? <==> JsonFields(fields) && DeepestField(fields) <= remaining
    ensures JsonFields(fields) && DeepestField(fields) > remaining ==>
      SerializeFields(fields, remaining) == Failure(DepthExceeded)
    decreases remaining, 1, |fields|
  {
    if fields != [] {
      SerializeSucceeds(fields[0].value, remaining);
      FieldsSucceed(fields[1..], remaining);
      assert JsonFields(fields) <==> IsJson(fields[0].value) && JsonFields(fields[1..]) by {
        if IsJson(fields[0].value) && JsonFields(fields[1..]) {
          forall i | 0 <= i < |fields| ensures IsJson(fields[i].value) {
            if i > 0 { assert fields[i] == fields[1..][i - 1]; }
          }
        }
      }
    }
  }

  lemma SameJson(fields: seq<Field>, sorted: seq<Field>)
    requires Elements(fields) == Elements(sorted)
    ensures JsonFields(fields) <==> JsonFields(sorted)
  {
    assert JsonFields(fields) <==> forall f | f in Elements(fields) :: IsJson(f.value);
    assert JsonFields(sorted) <==> forall f | f in Elements(sorted) :: IsJson(f.value);
  }

  lemma SameDeepest(fields: seq<Field>, sorted: seq<Field>)
    requires Elements(fields) == Elements(sorted)
    ensures DeepestField(fields) == DeepestField(sorted)
  {
    DeepestWithin(fields, sorted);
    DeepestWithin(sorted, fields);
  }

  lemma {:induction false} DeepestWithin(fields: seq<Field>, others: seq<Field>)
    requires Elements(fields) <= Elements(others)
    ensures DeepestField(fields) <= DeepestField(others)
  {
    if fields != [] {
      assert Elements(fields[1..]) <= Elements(others) by {
        forall f | f in Elements(fields[1..]) ensures f in Elements(others) { assert f in Elements(fields); }
      }
      DeepestWithin(fields[1..], others);
      assert fields[0] in Elements(fields);
      FieldBelowDeepest(fields[0], others);
    }
  }

  lemma {:induction false} FieldBelowDeepest(f: Field, fields: seq<Field>)
    requires f in fields
    ensures JsonDepth(f.value) <= DeepestField(fields)
  {
    if f != fields[0] { FieldBelowDeepest(f, fields[1..]); }
  }

  /** Canonical printing succeeds exactly on JSON values within the depth bound, and on a
      JSON value the depth bound is the only way to fail. */
  lemma CanonicalJsonSucceeds(v: JsValue, maxDepth: int)
    requires maxDepth >= 1
    ensures CanonicalJson(v, maxDepth).Success? <==> IsJson(v) && JsonDepth(v) <= maxDepth
    ensures IsJson(v) ==> (JsonDepth(v) > maxDepth <==> CanonicalJson(v, maxDepth) == Failure(DepthExceeded))
  {
    SerializeSucceeds(v, maxDepth);
  }

  /** On every JSON value and positive limit the worklist, the recursive depth, the saturating depth
      and the canonical printer agree, and they object exactly when more than `limit` containers are
      nested inside one another. */
  method DepthGuardsAgree(value: JsValue, limit: int) returns (exceeds: bool, bounded: nat)
    requires IsJson(value) && limit >= 1
    ensures exceeds <==> JsonDepth(value) > limit
    ensures bounded > limit <==> JsonDepth(value) > limit
    ensures CanonicalJson(value, limit) == Failure(DepthExceeded) <==> JsonDepth(value) > limit
    ensures JsonDepth(value) > limit <==> Nested(value, limit + 1)
  {
    exceeds := ExceedsJsonDepth(value, limit);
    bounded := BoundedJsonDepth(value, limit);
    CanonicalJsonSucceeds(value, limit);
    JsonDepthExact(value, limit + 1);
  }
}
