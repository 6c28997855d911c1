/** The nesting-depth computations guarding JSON payloads. */
module DepthGuards {
  import opened Outcomes
  import opened JsonValues

  function FieldValues(fields: seq<Field>): (values: seq<JsValue>)
    ensures |values| == |fields| && forall i | 0 <= i < |fields| :: values[i] == fields[i].value
  {
    seq(|fields|, i requires 0 <= i < |fields| => fields[i].value)
  }

  function AtLeastZero(m: int): nat { if m < 0 then 0 else m }

  // ----- Reference: chains of nested containers -----

  predicate Container(v: JsValue) { v.Array? || v.Object? }

  function Children(v: JsValue): seq<JsValue>
    requires Container(v)
  {
    if v.Array? then v.items else FieldValues(v.fields)
  }

  /** v begins a chain of d containers, each directly inside the one before. */
  ghost predicate Nested(v: JsValue, d: nat)
    decreases d
  {
    d == 0 || (Container(v) && (d == 1 || exists i :: 0 <= i < |Children(v)| && Nested(Children(v)[i], d - 1)))
  }

  // ----- jsonDepth -----

  function JsonDepth(v: JsValue): nat {
    match v
    case Array(items) => 1 + DeepestItem(items)
    case Object(fields) => 1 + DeepestField(fields)
    case _ => 0
  }

  function DeepestItem(items: seq<JsValue>): nat {
    if items == [] then 0 else Max(JsonDepth(items[0]), DeepestItem(items[1..]))
  }

  function DeepestField(fields: seq<Field>): nat {
    if fields == [] then 0 else Max(JsonDepth(fields[0].value), DeepestField(fields[1..]))
  }

  function Max(a: nat, b: nat): nat { if a < b then b else a }

  lemma {:induction false} DeepestFieldIsItem(fields: seq<Field>)
    ensures DeepestField(fields) == DeepestItem(FieldValues(fields))
  {
    if fields != [] {
      DeepestFieldIsItem(fields[1..]);
      assert FieldValues(fields)[1..] == FieldValues(fields[1..]);
    }
  }

  lemma DepthOfChildren(v: JsValue)
    requires Container(v)
    ensures JsonDepth(v) == 1 + DeepestItem(Children(v))
  {
    if v.Object? { DeepestFieldIsItem(v.fields); }
  }

  /** DeepestItem is the maximum: an upper bound that some item reaches. */
  lemma {:induction false} DeepestItemExact(items: seq<JsValue>, d: nat)
    ensures d <= DeepestItem(items) <==> d == 0 || exists i :: 0 <= i < |items| && d <= JsonDepth(items[i])
  {
    if items != [] {
      DeepestItemExact(items[1..], d);
      if i :| 0 <= i < |items| && d <= JsonDepth(items[i]) {
        if i > 0 { assert items[i] == items[1..][i - 1]; }
      }
      if j :| 0 <= j < |items[1..]| && d <= JsonDepth(items[1..][j]) { assert items[j + 1] == items[1..][j]; }
    }
  }

  /** jsonDepth is the length of the longest chain of nested containers. */
  lemma {:induction false} JsonDepthExact(v: JsValue, d: nat)
    ensures d <= JsonDepth(v) <==> Nested(v, d)
    decreases d
  {
    if d > 0 && Container(v) {
      var items := Children(v);
      DepthOfChildren(v);
      DeepestItemExact(items, d - 1);
      forall i | 0 <= i < |items| ensures d - 1 <= JsonDepth(items[i]) <==> Nested(items[i], d - 1) {
        JsonDepthExact(items[i], d - 1);
      }
    }
  }

  // ----- boundedJsonDepth -----

  function Min(a: nat, b: nat): nat { if a < b then a else b }

  /** Saturates just above the limit instead of descending further. */
  method BoundedJsonDepth(value: JsValue, remainingDepth: int) returns (depth: nat)
    ensures depth == Min(JsonDepth(value), AtLeastZero(remainingDepth) + 1)
    decreases AtLeastZero(remainingDepth)
  {
    if !Container(value) { return 0; }
    DepthOfChildren(value);
    if remainingDepth <= 0 { return 1; }
    var children := Children(value);
    var deepestChild := 0;
    var index := 0;
    while index < |children|
      invariant 0 <= index <= |children|
      invariant deepestChild == Min(DeepestItem(children[..index]), remainingDepth)
    {
      var childDepth := BoundedJsonDepth(children[index], remainingDepth - 1);
      DeepestSnoc(children[..index], children[index]);
      assert children[..index + 1] == children[..index] + [children[index]];
      if childDepth > deepestChild { deepestChild := childDepth; }
      index := index + 1;
    }
    assert children[..index] == children;
    depth := 1 + deepestChild;
  }

  lemma {:induction false} DeepestSnoc(items: seq<JsValue>, last: JsValue)
    ensures DeepestItem(items + [last]) == Max(DeepestItem(items), JsonDepth(last))
  {
    if items == [] {
      assert [last][1..] == [];
      assert items + [last] == [last];
    } else {
      DeepestSnoc(items[1..], last);
      assert (items + [last])[1..] == items[1..] + [last];
    }
  }

  // ----- exceedsJsonDepth -----

  datatype Pending = Pending(value: JsValue, depth: nat)

  /** Number of values in v, v included: what one pop takes off the worklist. */
  function Size(v: JsValue): nat {
    match v
    case Array(items) => 1 + ItemsSize(items)
    case Object(fields) => 1 + FieldsSize(fields)
    case _ => 1
  }

  function ItemsSize(items: seq<JsValue>): nat {
    if items == [] then 0 else Size(items[0]) + ItemsSize(items[1..])
  }

  function FieldsSize(fields: seq<Field>): nat {
    if fields == [] then 0 else Size(fields[0].value) + FieldsSize(fields[1..])
  }

  lemma {:induction false} FieldsSizeIsItems(fields: seq<Field>)
    ensures FieldsSize(fields) == ItemsSize(FieldValues(fields))
  {
    if fields != [] {
      FieldsSizeIsItems(fields[1..]);
      assert FieldValues(fields)[1..] == FieldValues(fields[1..]);
    }
  }

  lemma SizeOfChildren(v: JsValue)
    requires Container(v)
    ensures Size(v) == 1 + ItemsSize(Children(v))
  {
    if v.Object? { FieldsSizeIsItems(v.fields); }
  }

  lemma {:induction false} ItemsSizeSnoc(items: seq<JsValue>, last: JsValue)
    ensures ItemsSize(items + [last]) == ItemsSize(items) + Size(last)
  {
    if items == [] {
      assert [last][1..] == [];
      assert items + [last] == [last];
    } else {
      ItemsSizeSnoc(items[1..], last);
      assert (items + [last])[1..] == items[1..] + [last];
    }
  }

  ghost function PendingSize(pending: seq<Pending>): nat {
    if pending == [] then 0
    else PendingSize(pending[..|pending| - 1]) + Size(pending[|pending| - 1].value)
  }

  /** The deepest level any pending value reaches, counted from the root. */
  ghost function PendingDepth(pending: seq<Pending>): nat {
    if pending == [] then 0
    else
      var top := pending[|pending| - 1];
      Max(PendingDepth(pending[..|pending| - 1]), top.depth + JsonDepth(top.value))
  }

  lemma PushedSize(pending: seq<Pending>, p: Pending)
    ensures PendingSize(pending + [p]) == PendingSize(pending) + Size(p.value)
    ensures PendingDepth(pending + [p]) == Max(PendingDepth(pending), p.depth + JsonDepth(p.value))
  {
    assert (pending + [p])[..|pending|] == pending;
  }

  lemma PoppedSize(pending: seq<Pending>)
    requires pending != []
    ensures var below, top := pending[..|pending| - 1], pending[|pending| - 1];
      && PendingSize(pending) == PendingSize(below) + Size(top.value) && Size(top.value) > 0
      && PendingDepth(pending) == Max(PendingDepth(below), top.depth + JsonDepth(top.value))
  {
  }

  function ChildValues(v: JsValue): Option<seq<JsValue>> {
    match v
    case Array(items) => Some(items)
    case Object(fields) => Some(FieldValues(fields))
    case ClassInstance(fields) => Some(FieldValues(fields))
    case _ => None
  }

  /** What remains of a container after pushing its first children one level down. */
  lemma PushedChild(pending: seq<Pending>, below: seq<Pending>, children: seq<JsValue>, index: nat, level: nat)
    requires index < |children|
    requires PendingSize(pending) == PendingSize(below) + ItemsSize(children[..index])
    requires Max(PendingDepth(pending), level) == Max(PendingDepth(below), level + DeepestItem(children[..index]))
    ensures var next := pending + [Pending(children[index], level)];
      && PendingSize(next) == PendingSize(below) + ItemsSize(children[..index + 1])
      && Max(PendingDepth(next), level) == Max(PendingDepth(below), level + DeepestItem(children[..index + 1]))
  {
    PushedSize(pending, Pending(children[index], level));
    DeepestSnoc(children[..index], children[index]);
    ItemsSizeSnoc(children[..index], children[index]);
    assert children[..index + 1] == children[..index] + [children[index]];
  }

  lemma NoChildren(children: seq<JsValue>)
    ensures ItemsSize(children[..0]) == 0 && DeepestItem(children[..0]) == 0
  {
  }

  lemma EmptyWorklist()
    ensures PendingSize([]) == 0 && PendingDepth([]) == 0
  {
  }

  lemma ScalarDepth(v: JsValue)
    requires !Container(v)
    ensures JsonDepth(v) == 0
  {
  }

  /** The explicit-stack walk over a parsed request body, for every limit. */
  method ExceedsJsonDepth(value: JsValue, maxDepth: int) returns (exceeds: bool)
    requires IsJson(value)
    ensures exceeds <==> JsonDepth(value) > AtLeastZero(maxDepth)
  {
    hide JsonDepth, Size, DeepestItem, ItemsSize, PendingSize, PendingDepth;
    var pending := [Pending(value, 0)];
    PushedSize([], pending[0]);
    EmptyWorklist();
    assert [] + pending == pending;
    ghost var limit := AtLeastZero(maxDepth);
    while |pending| > 0
      invariant JsonDepth(value) > limit <==> PendingDepth(pending) > limit
      invariant forall i | 0 <= i < |pending| :: pending[i].depth <= limit && IsJson(pending[i].value)
      decreases PendingSize(pending)
    {
      PoppedSize(pending);
      var current := pending[|pending| - 1];
      pending := pending[..|pending| - 1];
      var childValues := ChildValues(current.value);
      if childValues == None {
        ScalarDepth(current.value);
        continue;
      }
      var children := childValues.value;
      DepthOfChildren(current.value);
      SizeOfChildren(current.value);
      if current.depth + 1 > maxDepth { return true; }
      ghost var below := pending;
      var index := 0;
      NoChildren(children);
      while index < |children|
        invariant 0 <= index <= |children|
        invariant forall i | 0 <= i < |pending| :: pending[i].depth <= limit && IsJson(pending[i].value)
        invariant PendingSize(pending) == PendingSize(below) + ItemsSize(children[..index])
        invariant Max(PendingDepth(pending), current.depth + 1)
               == Max(PendingDepth(below), current.depth + 1 + DeepestItem(children[..index]))
      {
        PushedChild(pending, below, children, index, current.depth + 1);
        pending := pending + [Pending(children[index], current.depth + 1)];
        index := index + 1;
      }
      assert children[..index] == children;
    }
    exceeds := false;
    assert pending == [];
  }
}
