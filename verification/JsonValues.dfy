/** JavaScript values as JSON code sees them, with strings as UTF-16 code units. */
module JsonValues {
  import opened Sequences

  type CodeUnit = u: int | 0 <= u < 0x1_0000
  type Text = seq<CodeUnit>

  /** A finite number is represented by the token JSON.stringify prints for it; printing is
      injective on finite numbers apart from -0, which prints as 0. Object fields are in
      insertion order. */
  datatype JsValue =
    | Null
    | Bool(bit: bool)
    | Number(token: Text)
    | NonFinite
    | Str(text: Text)
    | Array(items: seq<JsValue>)
    | Object(fields: seq<Field>)
    | ClassInstance(fields: seq<Field>)
    | Undefined
    | Other

  datatype Field = Field(key: Text, value: JsValue)

  predicate NumberUnit(u: CodeUnit) {
    0x30 <= u <= 0x39 || u == 0x2B || u == 0x2D || u == 0x2E || u == 0x45 || u == 0x65
  }

  predicate NumberToken(t: Text) {
    t != [] && forall i | 0 <= i < |t| :: NumberUnit(t[i])
  }

  function Keys(fields: seq<Field>): (keys: seq<Text>)
    ensures |keys| == |fields| && forall i | 0 <= i < |fields| :: keys[i] == fields[i].key
  {
    seq(|fields|, i requires 0 <= i < |fields| => fields[i].key)
  }

  /** What the language guarantees: own keys are distinct and numbers print as number tokens. */
  ghost predicate WellFormed(v: JsValue) {
    match v
    case Number(token) => NumberToken(token)
    case Array(items) => forall i | 0 <= i < |items| :: WellFormed(items[i])
    case Object(fields) => NoRepeats(Keys(fields)) && forall i | 0 <= i < |fields| :: WellFormed(fields[i].value)
    case ClassInstance(fields) => NoRepeats(Keys(fields)) && forall i | 0 <= i < |fields| :: WellFormed(fields[i].value)
    case _ => true
  }

  /** A value JSON.parse can produce. */
  ghost predicate IsJson(v: JsValue) {
    match v
    case Array(items) => forall i | 0 <= i < |items| :: IsJson(items[i])
    case Object(fields) => forall i | 0 <= i < |fields| :: IsJson(fields[i].value)
    case NonFinite => false
    case ClassInstance(_) => false
    case Undefined => false
    case Other => false
    case _ => true
  }

  /** The same JSON value, object keys in any order. */
  ghost predicate SameUpToKeyOrder(a: JsValue, b: JsValue) {
    match a
    case Array(items) =>
      && b.Array? && |items| == |b.items|
      && forall i | 0 <= i < |items| :: SameUpToKeyOrder(items[i], b.items[i])
    case Object(fields) =>
      && b.Object? && |fields| == |b.fields|
      && forall i | 0 <= i < |fields| :: exists j :: 0 <= j < |b.fields| && SameField(fields[i], b.fields[j])
    case _ => a == b
  }

  ghost predicate SameField(f: Field, g: Field) {
    f.key == g.key && SameUpToKeyOrder(f.value, g.value)
  }

  // ----- Key order -----

  /** String comparison by UTF-16 code units. */
  predicate Less(a: Text, b: Text) {
    b != [] && (a == [] || a[0] < b[0] || (a[0] == b[0] && Less(a[1..], b[1..])))
  }

  lemma {:induction false} LessTotal(a: Text, b: Text)
    ensures a == b || Less(a, b) || Less(b, a)
    ensures !(Less(a, b) && Less(b, a)) && !Less(a, a)
  {
    if a != [] && b != [] {
      LessTotal(a[1..], b[1..]);
      if a[0] == b[0] && a[1..] == b[1..] { assert a == [a[0]] + a[1..] == b; }
    }
    if a != [] { LessTotal(a[1..], []); LessIrreflexive(a); }
  }

  lemma {:induction false} LessIrreflexive(a: Text)
    ensures !Less(a, a)
  {
    if a != [] { LessIrreflexive(a[1..]); }
  }

  lemma {:induction false} LessTransitive(a: Text, b: Text, c: Text)
    requires Less(a, b) && Less(b, c)
    ensures Less(a, c)
  {
    if a != [] && a[0] == b[0] == c[0] { LessTransitive(a[1..], b[1..], c[1..]); }
  }

  /** Equal up to unit k, which is smaller in the first. */
  ghost predicate DiffersAt(a: Text, b: Text, k: nat) {
    k < |a| && k < |b| && a[..k] == b[..k] && a[k] < b[k]
  }

  /** The UTF-16 order: a proper prefix comes first, otherwise the first different unit decides. */
  ghost predicate CodeUnitOrder(a: Text, b: Text) {
    a < b || exists k: nat :: DiffersAt(a, b, k)
  }

  lemma {:induction false} LessExact(a: Text, b: Text)
    ensures Less(a, b) <==> CodeUnitOrder(a, b)
  {
    if a != [] && b != [] && a[0] == b[0] {
      LessExact(a[1..], b[1..]);
      OrderOfTails(a, b);
    } else if a != [] && b != [] {
      hide Less;
      OrderOfHeads(a, b);
      LessByHeads(a, b);
    }
  }

  lemma LessByHeads(a: Text, b: Text)
    requires a != [] && b != [] && a[0] != b[0]
    ensures Less(a, b) <==> a[0] < b[0]
  {
  }

  lemma OrderOfHeads(a: Text, b: Text)
    requires a != [] && b != [] && a[0] != b[0]
    ensures CodeUnitOrder(a, b) <==> a[0] < b[0]
  {
    assert a[..0] == b[..0];
    if a[0] < b[0] { assert DiffersAt(a, b, 0); }
    if k: nat :| DiffersAt(a, b, k) { assert k > 0 ==> a[..k][0] == b[..k][0]; }
  }

  lemma DiffersInTails(a: Text, b: Text, k: nat)
    requires a != [] && b != [] && a[0] == b[0] && k > 0
    ensures DiffersAt(a, b, k) <==> DiffersAt(a[1..], b[1..], k - 1)
  {
    if k < |a| && k < |b| {
      var c, d := a[1..], b[1..];
      assert c[..k - 1] == a[..k][1..] && d[..k - 1] == b[..k][1..];
      assert a[..k] == [a[0]] + c[..k - 1] && b[..k] == [b[0]] + d[..k - 1];
    }
  }

  lemma OrderOfTails(a: Text, b: Text)
    requires a != [] && b != [] && a[0] == b[0]
    ensures CodeUnitOrder(a, b) <==> CodeUnitOrder(a[1..], b[1..])
  {
    var c, d := a[1..], b[1..];
    assert a == [a[0]] + c && b == [b[0]] + d;
    hide DiffersAt;
    if k: nat :| DiffersAt(a, b, k) {
      NoDifferenceAtHead(a, b, k);
      DiffersInTails(a, b, k);
      assert DiffersAt(c, d, k - 1);
    }
    if k: nat :| DiffersAt(c, d, k) { DiffersInTails(a, b, k + 1); }
  }

  lemma NoDifferenceAtHead(a: Text, b: Text, k: nat)
    requires a != [] && b != [] && a[0] == b[0] && DiffersAt(a, b, k)
    ensures k > 0
  {
  }

  function InsertByKey(f: Field, fields: seq<Field>): seq<Field> {
    if fields == [] || !Less(fields[0].key, f.key) then [f] + fields
    else [fields[0]] + InsertByKey(f, fields[1..])
  }

  /** Object.keys(...).sort(compareUtf16CodeUnits), carrying the values along. */
  function SortByKey(fields: seq<Field>): (sorted: seq<Field>)
    ensures |sorted| == |fields|
  {
    if fields == [] then [] else
      InsertLength(fields[0], SortByKey(fields[1..]));
      InsertByKey(fields[0], SortByKey(fields[1..]))
  }

  lemma {:induction false} InsertLength(f: Field, fields: seq<Field>)
    ensures |InsertByKey(f, fields)| == |fields| + 1
  {
    if fields != [] { InsertLength(f, fields[1..]); }
  }

  ghost predicate KeySorted(fields: seq<Field>) {
    forall i, j | 0 <= i < j < |fields| :: Less(fields[i].key, fields[j].key)
  }

  lemma {:induction false} InsertElements(f: Field, fields: seq<Field>)
    ensures Elements(InsertByKey(f, fields)) == {f} + Elements(fields)
  {
    if fields == [] || !Less(fields[0].key, f.key) {
      assert Elements([f] + fields) == {f} + Elements(fields);
    } else {
      InsertElements(f, fields[1..]);
      var rest := InsertByKey(f, fields[1..]);
      assert fields == [fields[0]] + fields[1..];
      assert Elements([fields[0]] + rest) == {fields[0]} + Elements(rest);
    }
  }

  lemma {:induction false} InsertSorted(f: Field, fields: seq<Field>)
    requires KeySorted(fields) && forall i | 0 <= i < |fields| :: fields[i].key != f.key
    ensures KeySorted(InsertByKey(f, fields))
  {
    if fields != [] {
      LessTotal(fields[0].key, f.key);
      if Less(fields[0].key, f.key) {
        InsertSorted(f, fields[1..]);
        InsertElements(f, fields[1..]);
        var rest := InsertByKey(f, fields[1..]);
        forall j | 0 <= j < |rest| ensures Less(fields[0].key, rest[j].key) {
          assert rest[j] in Elements(rest);
        }
      } else {
        forall j | 0 <= j < |fields| ensures Less(f.key, fields[j].key) {
          if j > 0 { LessTransitive(f.key, fields[0].key, fields[j].key); }
        }
      }
    }
  }

  lemma {:induction false} SortElements(fields: seq<Field>)
    ensures Elements(SortByKey(fields)) == Elements(fields)
  {
    if fields != [] {
      SortElements(fields[1..]);
      InsertElements(fields[0], SortByKey(fields[1..]));
      assert fields == [fields[0]] + fields[1..];
    }
  }

  lemma {:induction false} SortSorts(fields: seq<Field>)
    requires NoRepeats(Keys(fields))
    ensures KeySorted(SortByKey(fields))
  {
    if fields != [] {
      var rest := fields[1..];
      forall i, j | 0 <= i < j < |rest| ensures Keys(rest)[i] != Keys(rest)[j] {
        assert Keys(fields)[i + 1] != Keys(fields)[j + 1];
      }
      SortSorts(rest);
      SortElements(rest);
      var sorted := SortByKey(rest);
      forall i | 0 <= i < |sorted| ensures sorted[i].key != fields[0].key {
        assert sorted[i] in Elements(rest);
        var k :| 0 <= k < |rest| && rest[k] == sorted[i];
        assert Keys(fields)[0] != Keys(fields)[k + 1];
      }
      InsertSorted(fields[0], sorted);
    }
  }

  /** A key-sorted field list is determined by its fields. */
  lemma {:induction false} SortedUnique(xs: seq<Field>, ys: seq<Field>)
    requires KeySorted(xs) && KeySorted(ys)
    requires |xs| == |ys| && Elements(xs) == Elements(ys)
    ensures xs == ys
  {
    if xs != [] {
      assert xs[0] in Elements(ys) && ys[0] in Elements(xs);
      var i :| 0 <= i < |ys| && ys[i] == xs[0];
      var j :| 0 <= j < |xs| && xs[j] == ys[0];
      LessTotal(xs[0].key, ys[0].key);
      assert i == 0;
      LessTailElements(xs);
      LessTailElements(ys);
      SortedUnique(xs[1..], ys[1..]);
      assert xs == [xs[0]] + xs[1..] && ys == [ys[0]] + ys[1..];
    }
  }

  lemma LessTailElements(xs: seq<Field>)
    requires KeySorted(xs) && xs != []
    ensures Elements(xs[1..]) == Elements(xs) - {xs[0]}
  {
    assert xs == [xs[0]] + xs[1..];
    forall j | 1 <= j < |xs| ensures xs[j] != xs[0] { LessTotal(xs[0].key, xs[j].key); }
  }
}
