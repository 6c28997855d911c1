/** Answer checks of authored exercises: choices and sentence arrangements
    (lesson-exercise-authoring.validator.ts). */
module AnswerValidation {
  import opened JsonValues
  import opened Outcomes
  import opened Sequences

  datatype Code =
    | ObjectRequired | UnknownField | ArrayRequired | ArrayTooSmall | ArrayTooLarge
    | InvalidStableId | DuplicateStableId | StringRequired | NonEmptyStringRequired | StringTooLong
    | AuthoritativeOptionNotFound | InvalidTokenSet

  /** Where the failure lies; items are the options of a choice or the tokens of a sentence. */
  datatype Path =
    | Content | Items | ItemAt(index: nat) | ItemId(index: nat) | ItemText(index: nat)
    | Answer | AnswerOption | AnswerTokens | AnswerToken(index: nat)

  datatype Problem = Problem(code: Code, path: Path)

  /** Unicode compatibility normalisation, whitespace trimming and the identifier pattern. */
  datatype TextRules = TextRules(nfkc: Text -> Text, trim: Text -> Text, pattern: Text -> bool)

  /** Normalising twice, and normalising a trimmed normal form, change nothing. */
  ghost predicate Idempotent(rules: TextRules) {
    && (forall t: Text :: rules.nfkc(rules.nfkc(t)) == rules.nfkc(t))
    && (forall t: Text :: rules.trim(rules.nfkc(rules.trim(rules.nfkc(t)))) == rules.trim(rules.nfkc(t)))
  }

  datatype Item = Item(id: Text, text: Text)

  const MAX_ARRAY_LENGTH := 100
  const MAX_STRING_LENGTH := 4_096
  const MAX_ID_LENGTH := 128

  // The field names id, text, options, optionId, tokens and tokenIds.
  const ID: Text := [105, 100]
  const TEXT: Text := [116, 101, 120, 116]
  const OPTIONS: Text := [111, 112, 116, 105, 111, 110, 115]
  const OPTION_ID: Text := [111, 112, 116, 105, 111, 110, 73, 100]
  const TOKENS: Text := [116, 111, 107, 101, 110, 115]
  const TOKEN_IDS: Text := [116, 111, 107, 101, 110, 73, 100, 115]

  function Get(fields: seq<Field>, key: Text): JsValue {
    if fields == [] then Undefined
    else if fields[0].key == key then fields[0].value else Get(fields[1..], key)
  }

  predicate OnlyKeys(fields: seq<Field>, allowed: set<Text>) {
    forall i | 0 <= i < |fields| :: fields[i].key in allowed
  }

  /** requireRecord followed by assertAllowedKeys. */
  function RequireRecord(v: JsValue, allowed: set<Text>, path: Path): Result<seq<Field>, Problem> {
    if !v.Object? then Failure(Problem(ObjectRequired, path))
    else if !OnlyKeys(v.fields, allowed) then Failure(Problem(UnknownField, path))
    else Success(v.fields)
  }

  function RequireArray(v: JsValue, minimum: nat, path: Path): Result<seq<JsValue>, Problem> {
    if !v.Array? then Failure(Problem(ArrayRequired, path))
    else if |v.items| < minimum then Failure(Problem(ArrayTooSmall, path))
    else if |v.items| > MAX_ARRAY_LENGTH then Failure(Problem(ArrayTooLarge, path))
    else Success(v.items)
  }

  function RequireHumanText(rules: TextRules, v: JsValue, path: Path): Result<Text, Problem> {
    if !v.Str? then Failure(Problem(StringRequired, path)) else
    var normalized := rules.trim(rules.nfkc(v.text));
    if |normalized| == 0 then Failure(Problem(NonEmptyStringRequired, path))
    else if |normalized| > MAX_STRING_LENGTH then Failure(Problem(StringTooLong, path))
    else Success(normalized)
  }

  function RequireStableId(rules: TextRules, v: JsValue, path: Path): Result<Text, Problem> {
    if !v.Str? then Failure(Problem(InvalidStableId, path)) else
    var normalized := rules.nfkc(v.text);
    if |normalized| == 0 || |normalized| > MAX_ID_LENGTH || !rules.pattern(normalized)
    then Failure(Problem(InvalidStableId, path))
    else Success(normalized)
  }

  // ----- Specification: the first problem in reading order, or the canonical form -----

  function OneItem(rules: TextRules, raw: JsValue, index: nat, seen: set<Text>): Result<Item, Problem> {
    match RequireRecord(raw, {ID, TEXT}, ItemAt(index))
    case Failure(problem) => Failure(problem)
    case Success(fields) =>
      match RequireStableId(rules, Get(fields, ID), ItemId(index))
      case Failure(problem) => Failure(problem)
      case Success(id) =>
        if id in seen then Failure(Problem(DuplicateStableId, ItemId(index))) else
        match RequireHumanText(rules, Get(fields, TEXT), ItemText(index))
        case Failure(problem) => Failure(problem)
        case Success(text) => Success(Item(id, text))
  }

  function Ids(items: seq<Item>): (ids: seq<Text>)
    ensures |ids| == |items| && forall i | 0 <= i < |items| :: ids[i] == items[i].id
  {
    seq(|items|, i requires 0 <= i < |items| => items[i].id)
  }

  function AllItems(rules: TextRules, raw: seq<JsValue>): (r: Result<seq<Item>, Problem>)
    ensures r.Success? ==> |r.value| == |raw|
  {
    if raw == [] then Success([]) else
    var last := |raw| - 1;
    match AllItems(rules, raw[..last])
    case Failure(problem) => Failure(problem)
    case Success(items) =>
      match OneItem(rules, raw[last], last, Elements(Ids(items)))
      case Failure(problem) => Failure(problem)
      case Success(item) => Success(items + [item])
  }

  function AllTokenIds(rules: TextRules, raw: seq<JsValue>): (r: Result<seq<Text>, Problem>)
    ensures r.Success? ==> |r.value| == |raw|
  {
    if raw == [] then Success([]) else
    var last := |raw| - 1;
    match AllTokenIds(rules, raw[..last])
    case Failure(problem) => Failure(problem)
    case Success(ids) =>
      match RequireStableId(rules, raw[last], AnswerToken(last))
      case Failure(problem) => Failure(problem)
      case Success(id) => Success(ids + [id])
  }

  /** The items of `content`, found under `key`. */
  function ContentItems(rules: TextRules, content: JsValue, key: Text): Result<seq<Item>, Problem> {
    match RequireRecord(content, {key}, Content)
    case Failure(problem) => Failure(problem)
    case Success(fields) =>
      match RequireArray(Get(fields, key), 2, Items)
      case Failure(problem) => Failure(problem)
      case Success(raw) => AllItems(rules, raw)
  }

  datatype Choice = Choice(options: seq<Item>, optionId: Text)

  datatype Arrangement = Arrangement(tokens: seq<Item>, tokenIds: seq<Text>)

  function ChoiceAnswer(rules: TextRules, options: seq<Item>, answer: JsValue): Result<Choice, Problem> {
    match RequireRecord(answer, {OPTION_ID}, Answer)
    case Failure(problem) => Failure(problem)
    case Success(fields) =>
      match RequireStableId(rules, Get(fields, OPTION_ID), AnswerOption)
      case Failure(problem) => Failure(problem)
      case Success(optionId) =>
        if optionId in Ids(options) then Success(Choice(options, optionId))
        else Failure(Problem(AuthoritativeOptionNotFound, AnswerOption))
  }

  function ValidChoice(rules: TextRules, content: JsValue, answer: JsValue): Result<Choice, Problem> {
    match ContentItems(rules, content, OPTIONS)
    case Failure(problem) => Failure(problem)
    case Success(options) => ChoiceAnswer(rules, options, answer)
  }

  function ArrangeAnswer(rules: TextRules, tokens: seq<Item>, answer: JsValue): Result<Arrangement, Problem> {
    match RequireRecord(answer, {TOKEN_IDS}, Answer)
    case Failure(problem) => Failure(problem)
    case Success(fields) =>
      match RequireArray(Get(fields, TOKEN_IDS), 1, AnswerTokens)
      case Failure(problem) => Failure(problem)
      case Success(raw) =>
        match AllTokenIds(rules, raw)
        case Failure(problem) => Failure(problem)
        case Success(tokenIds) =>
          if multiset(tokenIds) == multiset(Ids(tokens)) then Success(Arrangement(tokens, tokenIds))
          else Failure(Problem(InvalidTokenSet, AnswerTokens))
  }

  function ValidArrangement(rules: TextRules, content: JsValue, answer: JsValue): Result<Arrangement, Problem> {
    match ContentItems(rules, content, TOKENS)
    case Failure(problem) => Failure(problem)
    case Success(tokens) => ArrangeAnswer(rules, tokens, answer)
  }

  // ----- The validators -----

  lemma PrefixFails(rules: TextRules, raw: seq<JsValue>, n: nat)
    requires n <= |raw| && AllItems(rules, raw[..n]).Failure?
    ensures AllItems(rules, raw) == AllItems(rules, raw[..n])
    decreases |raw| - n
  {
    if n == |raw| {
      assert raw[..n] == raw;
    } else {
      assert raw[..n + 1][..n] == raw[..n];
      PrefixFails(rules, raw, n + 1);
    }
  }

  lemma TokenPrefixFails(rules: TextRules, raw: seq<JsValue>, n: nat)
    requires n <= |raw| && AllTokenIds(rules, raw[..n]).Failure?
    ensures AllTokenIds(rules, raw) == AllTokenIds(rules, raw[..n])
    decreases |raw| - n
  {
    if n == |raw| {
      assert raw[..n] == raw;
    } else {
      assert raw[..n + 1][..n] == raw[..n];
      TokenPrefixFails(rules, raw, n + 1);
    }
  }

  /** One more item: the recursive result and the set of ids grow together. */
  lemma ItemsAppend(rules: TextRules, raw: seq<JsValue>, index: nat, items: seq<Item>, item: Item)
    requires index < |raw| && AllItems(rules, raw[..index]) == Success(items)
    requires OneItem(rules, raw[index], index, Elements(Ids(items))) == Success(item)
    ensures AllItems(rules, raw[..index + 1]) == Success(items + [item])
    ensures Elements(Ids(items + [item])) == Elements(Ids(items)) + {item.id}
  {
    hide OneItem;
    assert raw[..index + 1][..index] == raw[..index];
    assert Ids(items + [item]) == Ids(items) + [item.id];
  }

  lemma NoItems(rules: TextRules)
    ensures AllItems(rules, []) == Success([]) && Elements(Ids([])) == {}
  {
  }

  lemma ItemFails(rules: TextRules, raw: seq<JsValue>, index: nat, items: seq<Item>, problem: Problem)
    requires index < |raw| && AllItems(rules, raw[..index]) == Success(items)
    requires OneItem(rules, raw[index], index, Elements(Ids(items))) == Failure(problem)
    ensures AllItems(rules, raw) == Failure(problem)
  {
    hide OneItem;
    assert raw[..index + 1][..index] == raw[..index];
    PrefixFails(rules, raw, index + 1);
  }

  /** The map callback over the items, filling the set of ids seen. */
  method CanonicalItems(rules: TextRules, raw: seq<JsValue>) returns (r: Result<seq<Item>, Problem>, ids: set<Text>)
    ensures r == AllItems(rules, raw)
    ensures r.Success? ==> ids == Elements(Ids(r.value))
  {
    hide OneItem, AllItems, Elements, Ids;
    var items: seq<Item> := [];
    ids := {};
    NoItems(rules);
    var index := 0;
    while index < |raw|
      invariant 0 <= index <= |raw|
      invariant AllItems(rules, raw[..index]) == Success(items) && ids == Elements(Ids(items))
    {
      var item := OneItem(rules, raw[index], index, ids);
      if item.Failure? {
        ItemFails(rules, raw, index, items, item.error);
        return Failure(item.error), ids;
      }
      ItemsAppend(rules, raw, index, items, item.value);
      ids := ids + {item.value.id};
      items := items + [item.value];
      index := index + 1;
    }
    assert raw[..index] == raw;
    r := Success(items);
  }

  method CanonicalTokenIds(rules: TextRules, raw: seq<JsValue>) returns (r: Result<seq<Text>, Problem>)
    ensures r == AllTokenIds(rules, raw)
  {
    var tokenIds: seq<Text> := [];
    var index := 0;
    while index < |raw|
      invariant 0 <= index <= |raw|
      invariant AllTokenIds(rules, raw[..index]) == Success(tokenIds)
    {
      assert raw[..index + 1][..index] == raw[..index];
      var id := RequireStableId(rules, raw[index], AnswerToken(index));
      if id.Failure? {
        TokenPrefixFails(rules, raw, index + 1);
        return Failure(id.error);
      }
      tokenIds := tokenIds + [id.value];
      index := index + 1;
    }
    assert raw[..index] == raw;
    r := Success(tokenIds);
  }

  method ValidateChoice(rules: TextRules, rawContent: JsValue, rawAnswer: JsValue) returns (r: Result<Choice, Problem>)
    ensures r == ValidChoice(rules, rawContent, rawAnswer)
  {
    var content := RequireRecord(rawContent, {OPTIONS}, Content);
    if content.Failure? { return Failure(content.error); }
    var options := RequireArray(Get(content.value, OPTIONS), 2, Items);
    if options.Failure? { return Failure(options.error); }
    var canonical, ids := CanonicalItems(rules, options.value);
    if canonical.Failure? { return Failure(canonical.error); }
    var answer := RequireRecord(rawAnswer, {OPTION_ID}, Answer);
    if answer.Failure? { return Failure(answer.error); }
    var optionId := RequireStableId(rules, Get(answer.value, OPTION_ID), AnswerOption);
    if optionId.Failure? { return Failure(optionId.error); }
    if optionId.value !in ids { return Failure(Problem(AuthoritativeOptionNotFound, AnswerOption)); }
    r := Success(Choice(canonical.value, optionId.value));
  }

  /** Three cheap comparisons decide that the answer is a permutation of the tokens. */
  method ValidateArrange(rules: TextRules, rawContent: JsValue, rawAnswer: JsValue)
    returns (r: Result<Arrangement, Problem>)
    ensures r == ValidArrangement(rules, rawContent, rawAnswer)
  {
    var content := RequireRecord(rawContent, {TOKENS}, Content);
    if content.Failure? { return Failure(content.error); }
    var tokens := RequireArray(Get(content.value, TOKENS), 2, Items);
    if tokens.Failure? { return Failure(tokens.error); }
    var canonical, ids := CanonicalItems(rules, tokens.value);
    if canonical.Failure? { return Failure(canonical.error); }
    var answer := RequireRecord(rawAnswer, {TOKEN_IDS}, Answer);
    if answer.Failure? { return Failure(answer.error); }
    var rawTokenIds := RequireArray(Get(answer.value, TOKEN_IDS), 1, AnswerTokens);
    if rawTokenIds.Failure? { return Failure(rawTokenIds.error); }
    var mapped := CanonicalTokenIds(rules, rawTokenIds.value);
    if mapped.Failure? { return Failure(mapped.error); }
    var tokenIds := mapped.value;
    ItemsDistinct(rules, tokens.value);
    PermutationTest(tokenIds, Ids(canonical.value));
    if |tokenIds| != |canonical.value| || |Elements(tokenIds)| != |tokenIds| || !(Elements(tokenIds) <= ids) {
      return Failure(Problem(InvalidTokenSet, AnswerTokens));
    }
    r := Success(Arrangement(canonical.value, tokenIds));
  }

  // ----- What acceptance means -----

  lemma {:induction false} ItemsDistinct(rules: TextRules, raw: seq<JsValue>)
    requires AllItems(rules, raw).Success?
    ensures NoRepeats(Ids(AllItems(rules, raw).value))
  {
    if raw != [] {
      ItemsDistinct(rules, raw[..|raw| - 1]);
      var items := AllItems(rules, raw[..|raw| - 1]).value;
      var ids := Ids(AllItems(rules, raw).value);
      assert ids[..|raw| - 1] == Ids(items);
      assert forall i | 0 <= i < |raw| - 1 :: ids[i] in Elements(Ids(items));
    }
  }

  /** Same length, no repeats and nothing foreign: by the pigeonhole principle, a permutation. */
  lemma PermutationTest(tokenIds: seq<Text>, ids: seq<Text>)
    requires NoRepeats(ids)
    ensures (|tokenIds| == |ids| && |Elements(tokenIds)| == |tokenIds| && Elements(tokenIds) <= Elements(ids))
      <==> multiset(tokenIds) == multiset(ids)
  {
    SetSize(tokenIds);
    SetSize(ids);
    if multiset(tokenIds) == multiset(ids) {
      assert forall x :: x in tokenIds <==> x in multiset(tokenIds);
      assert forall x :: x in ids <==> x in multiset(ids);
      assert Elements(tokenIds) == Elements(ids);
      assert |tokenIds| == |multiset(tokenIds)| && |ids| == |multiset(ids)|;
    } else if |tokenIds| == |ids| && NoRepeats(tokenIds) && Elements(tokenIds) <= Elements(ids) {
      SameElements(tokenIds, ids);
      SameMultiset(tokenIds, ids);
    }
  }

  /** The value is a string whose normal form is this identifier. */
  predicate ReadsId(rules: TextRules, v: JsValue, id: Text) {
    v.Str? && id == rules.nfkc(v.text) && 1 <= |id| <= 128 && rules.pattern(id)
  }

  /** The value is a string whose normal form, trimmed, is this text. */
  predicate ReadsText(rules: TextRules, v: JsValue, text: Text) {
    v.Str? && text == rules.trim(rules.nfkc(v.text)) && 1 <= |text| <= 4_096
  }

  lemma RequiredExact(rules: TextRules, v: JsValue, path: Path, t: Text)
    ensures RequireStableId(rules, v, path) == Success(t) <==> ReadsId(rules, v, t)
    ensures RequireHumanText(rules, v, path) == Success(t) <==> ReadsText(rules, v, t)
  {
  }

  /** The raw item is a plain record of an id and a text whose normal forms are `item`. */
  predicate ItemReads(rules: TextRules, raw: JsValue, item: Item) {
    && raw.Object? && OnlyKeys(raw.fields, {ID, TEXT})
    && ReadsId(rules, Get(raw.fields, ID), item.id) && ReadsText(rules, Get(raw.fields, TEXT), item.text)
  }

  ghost predicate ItemsRead(rules: TextRules, raw: seq<JsValue>, items: seq<Item>) {
    |items| == |raw| && forall i | 0 <= i < |raw| :: ItemReads(rules, raw[i], items[i])
  }

  lemma OneItemExact(rules: TextRules, raw: JsValue, index: nat, seen: set<Text>, item: Item)
    ensures OneItem(rules, raw, index, seen) == Success(item) <==> ItemReads(rules, raw, item) && item.id !in seen
  {
    if raw.Object? {
      RequiredExact(rules, Get(raw.fields, ID), ItemId(index), item.id);
      RequiredExact(rules, Get(raw.fields, TEXT), ItemText(index), item.text);
    }
    hide RequireStableId, RequireHumanText, ReadsId, ReadsText;
  }

  /** Items are accepted exactly when each reads on its own and no two ids are the same. */
  lemma {:induction false} ItemsExact(rules: TextRules, raw: seq<JsValue>, items: seq<Item>)
    ensures AllItems(rules, raw) == Success(items) <==> ItemsRead(rules, raw, items) && NoRepeats(Ids(items))
  {
    if |items| == |raw| > 0 {
      hide OneItem, ItemReads, ItemsRead, NoRepeats;
      var last := |raw| - 1;
      var front := items[..last];
      assert items == front + [items[last]];
      assert Ids(items) == Ids(front) + [items[last].id];
      ItemsExact(rules, raw[..last], front);
      NoRepeatsAppend(Ids(front), items[last].id);
      OneItemExact(rules, raw[last], last, Elements(Ids(front)), items[last]);
    }
  }

  ghost predicate ContentReads(rules: TextRules, content: JsValue, key: Text, items: seq<Item>) {
    && content.Object? && OnlyKeys(content.fields, {key})
    && Get(content.fields, key).Array? && 2 <= |Get(content.fields, key).items| <= 100
    && ItemsRead(rules, Get(content.fields, key).items, items) && NoRepeats(Ids(items))
  }

  lemma ContentExact(rules: TextRules, content: JsValue, key: Text, items: seq<Item>)
    ensures ContentItems(rules, content, key) == Success(items) <==> ContentReads(rules, content, key, items)
  {
    hide AllItems, ItemsRead, NoRepeats;
    if content.Object? && Get(content.fields, key).Array? {
      ItemsExact(rules, Get(content.fields, key).items, items);
    }
  }

  ghost predicate IdsRead(rules: TextRules, raw: seq<JsValue>, ids: seq<Text>) {
    |ids| == |raw| && forall i | 0 <= i < |raw| :: ReadsId(rules, raw[i], ids[i])
  }

  lemma {:induction false} TokenIdsExact(rules: TextRules, raw: seq<JsValue>, ids: seq<Text>)
    ensures AllTokenIds(rules, raw) == Success(ids) <==> IdsRead(rules, raw, ids)
  {
    if |ids| == |raw| > 0 {
      hide RequireStableId, ReadsId;
      var last := |raw| - 1;
      TokenIdsExact(rules, raw[..last], ids[..last]);
      RequiredExact(rules, raw[last], AnswerToken(last), ids[last]);
      assert forall i | 0 <= i < last :: raw[..last][i] == raw[i] && ids[..last][i] == ids[i];
      assert ids == ids[..last] + [ids[last]];
    }
  }

  /** An arrangement is accepted exactly when its tokens have valid distinct ids and texts and the
      answer lists every token id once, in some order. */
  lemma ArrangementExact(rules: TextRules, content: JsValue, answer: JsValue, a: Arrangement)
    ensures ValidArrangement(rules, content, answer) == Success(a) <==>
      && ContentReads(rules, content, TOKENS, a.tokens)
      && answer.Object? && OnlyKeys(answer.fields, {TOKEN_IDS})
      && Get(answer.fields, TOKEN_IDS).Array? && 1 <= |Get(answer.fields, TOKEN_IDS).items| <= 100
      && IdsRead(rules, Get(answer.fields, TOKEN_IDS).items, a.tokenIds)
      && multiset(a.tokenIds) == multiset(Ids(a.tokens))
  {
    hide ContentItems, ContentReads, AllTokenIds, IdsRead;
    ContentExact(rules, content, TOKENS, a.tokens);
    if answer.Object? && Get(answer.fields, TOKEN_IDS).Array? {
      TokenIdsExact(rules, Get(answer.fields, TOKEN_IDS).items, a.tokenIds);
    }
  }

  /** A choice is accepted exactly when its options have valid distinct ids and texts and the
      answer names one of them. */
  lemma ChoiceExact(rules: TextRules, content: JsValue, answer: JsValue, c: Choice)
    ensures ValidChoice(rules, content, answer) == Success(c) <==>
      && ContentReads(rules, content, OPTIONS, c.options)
      && answer.Object? && OnlyKeys(answer.fields, {OPTION_ID})
      && ReadsId(rules, Get(answer.fields, OPTION_ID), c.optionId)
      && exists i :: 0 <= i < |c.options| && c.options[i].id == c.optionId
  {
    hide ContentItems, ContentReads, RequireStableId, ReadsId;
    if answer.Object? { RequiredExact(rules, Get(answer.fields, OPTION_ID), AnswerOption, c.optionId); }
    ContentExact(rules, content, OPTIONS, c.options);
    if c.optionId in Ids(c.options) {
      var i :| 0 <= i < |c.options| && Ids(c.options)[i] == c.optionId;
      assert c.options[i].id == c.optionId;
    }
    if i :| 0 <= i < |c.options| && c.options[i].id == c.optionId {
      assert Ids(c.options)[i] == c.optionId;
    }
  }

  // ----- Revalidating the canonical form -----

  function ItemValue(item: Item): JsValue {
    Object([Field(ID, Str(item.id)), Field(TEXT, Str(item.text))])
  }

  function ItemsValue(key: Text, items: seq<Item>): JsValue {
    Object([Field(key, Array(seq(|items|, i requires 0 <= i < |items| => ItemValue(items[i]))))])
  }

  function TokenIdsValue(ids: seq<Text>): JsValue {
    Object([Field(TOKEN_IDS, Array(seq(|ids|, i requires 0 <= i < |ids| => Str(ids[i]))))])
  }

  lemma ItemReadsBack(rules: TextRules, raw: JsValue, item: Item)
    requires Idempotent(rules) && ItemReads(rules, raw, item)
    ensures ItemReads(rules, ItemValue(item), item)
  {
    var fields := ItemValue(item).fields;
    assert fields[0] == Field(ID, Str(item.id)) && fields[1..][0] == Field(TEXT, Str(item.text));
    assert ID != TEXT by { assert |ID| != |TEXT|; }
    assert Get(fields, ID) == Str(item.id) && Get(fields, TEXT) == Str(item.text);
  }

  lemma ContentReadsBack(rules: TextRules, content: JsValue, key: Text, items: seq<Item>)
    requires Idempotent(rules) && ContentReads(rules, content, key, items)
    ensures ContentReads(rules, ItemsValue(key, items), key, items)
  {
    hide ItemReads, Idempotent, ItemValue;
    var raw := Get(content.fields, key).items;
    forall i | 0 <= i < |items| ensures ItemReads(rules, ItemValue(items[i]), items[i]) {
      ItemReadsBack(rules, raw[i], items[i]);
    }
    var fields := ItemsValue(key, items).fields;
    assert fields[0].key == key;
  }

  /** What the validator stores is a fixed point: a stored arrangement is accepted unchanged. */
  lemma ArrangementRevalidates(rules: TextRules, content: JsValue, answer: JsValue, a: Arrangement)
    requires Idempotent(rules) && ValidArrangement(rules, content, answer) == Success(a)
    ensures ValidArrangement(rules, ItemsValue(TOKENS, a.tokens), TokenIdsValue(a.tokenIds)) == Success(a)
  {
    hide ContentReads, ValidArrangement, ItemsValue, AllTokenIds;
    ArrangementExact(rules, content, answer, a);
    ContentReadsBack(rules, content, TOKENS, a.tokens);
    var raw := Get(answer.fields, TOKEN_IDS).items;
    var stored := TokenIdsValue(a.tokenIds);
    var again := Get(stored.fields, TOKEN_IDS).items;
    forall i | 0 <= i < |again| ensures ReadsId(rules, again[i], a.tokenIds[i]) {
      assert ReadsId(rules, raw[i], a.tokenIds[i]);
    }
    ArrangementExact(rules, ItemsValue(TOKENS, a.tokens), stored, a);
  }

  /** A stored choice is accepted unchanged. */
  lemma ChoiceRevalidates(rules: TextRules, content: JsValue, answer: JsValue, c: Choice)
    requires Idempotent(rules) && ValidChoice(rules, content, answer) == Success(c)
    ensures ValidChoice(rules, ItemsValue(OPTIONS, c.options), Object([Field(OPTION_ID, Str(c.optionId))])) ==
      Success(c)
  {
    hide ContentReads, ValidChoice, ItemsValue;
    ChoiceExact(rules, content, answer, c);
    ContentReadsBack(rules, content, OPTIONS, c.options);
    var stored := [Field(OPTION_ID, Str(c.optionId))];
    assert Get(stored, OPTION_ID) == Str(c.optionId);
    ChoiceExact(rules, ItemsValue(OPTIONS, c.options), Object(stored), c);
  }

  // ----- Which problem is reported -----

  ghost predicate Plain(v: JsValue, allowed: set<Text>) {
    v.Object? && forall f | f in v.fields :: f.key in allowed
  }

  /** What is wrong with item i when ids before it are `seen`: its shape first, then its id, then
      its text. */
  ghost predicate ItemProblem(rules: TextRules, raw: JsValue, i: nat, seen: set<Text>, p: Problem) {
    if !raw.Object? then p == Problem(ObjectRequired, ItemAt(i))
    else if !Plain(raw, {ID, TEXT}) then p == Problem(UnknownField, ItemAt(i))
    else if !exists id :: ReadsId(rules, Get(raw.fields, ID), id) then p == Problem(InvalidStableId, ItemId(i))
    else if exists id :: id in seen && ReadsId(rules, Get(raw.fields, ID), id) then
      p == Problem(DuplicateStableId, ItemId(i))
    else TextProblem(rules, Get(raw.fields, TEXT), ItemText(i), p)
  }

  predicate TextProblem(rules: TextRules, v: JsValue, path: Path, p: Problem) {
    || (!v.Str? && p == Problem(StringRequired, path))
    || (v.Str? && |rules.trim(rules.nfkc(v.text))| == 0 && p == Problem(NonEmptyStringRequired, path))
    || (v.Str? && |rules.trim(rules.nfkc(v.text))| > 4_096 && p == Problem(StringTooLong, path))
  }

  lemma OneItemProblem(rules: TextRules, raw: JsValue, i: nat, seen: set<Text>)
    requires OneItem(rules, raw, i, seen).Failure?
    ensures ItemProblem(rules, raw, i, seen, OneItem(rules, raw, i, seen).error)
  {
    if raw.Object? {
      assert OnlyKeys(raw.fields, {ID, TEXT}) <==> Plain(raw, {ID, TEXT});
      var v := Get(raw.fields, ID);
      if v.Str? { assert ReadsId(rules, v, rules.nfkc(v.text)) <==> RequireStableId(rules, v, ItemId(i)).Success?; }
    }
  }

  /** The problem reported for a list of items is that of its first bad item, all before it being
      accepted. */
  lemma {:induction false} FirstProblem(rules: TextRules, raw: seq<JsValue>)
    requires AllItems(rules, raw).Failure?
    ensures exists i :: (
      && 0 <= i < |raw| && AllItems(rules, raw[..i]).Success?
      && ItemProblem(rules, raw[i], i, Elements(Ids(AllItems(rules, raw[..i]).value)), AllItems(rules, raw).error))
  {
    hide ItemProblem, OneItem;
    var last := |raw| - 1;
    if AllItems(rules, raw[..last]).Failure? {
      FirstProblem(rules, raw[..last]);
      var front := raw[..last];
      var i :| 0 <= i < last && AllItems(rules, front[..i]).Success?
        && ItemProblem(rules, front[i], i, Elements(Ids(AllItems(rules, front[..i]).value)),
                       AllItems(rules, front).error);
      assert front[..i] == raw[..i];
    } else {
      OneItemProblem(rules, raw[last], last, Elements(Ids(AllItems(rules, raw[..last]).value)));
    }
  }

  /** The choice is refused for its content first, then for its answer. */
  lemma ChoiceProblem(rules: TextRules, content: JsValue, answer: JsValue)
    requires ValidChoice(rules, content, answer).Failure?
    ensures var p := ValidChoice(rules, content, answer).error;
      if ContentItems(rules, content, OPTIONS).Failure? then ContentProblem(rules, content, OPTIONS, p)
      else if !answer.Object? then p == Problem(ObjectRequired, Answer)
      else if !Plain(answer, {OPTION_ID}) then p == Problem(UnknownField, Answer)
      else if !exists id :: ReadsId(rules, Get(answer.fields, OPTION_ID), id) then
        p == Problem(InvalidStableId, AnswerOption)
      else p == Problem(AuthoritativeOptionNotFound, AnswerOption)
  {
    hide AllItems;
    if answer.Object? {
      assert OnlyKeys(answer.fields, {OPTION_ID}) <==> Plain(answer, {OPTION_ID});
      var v := Get(answer.fields, OPTION_ID);
      if v.Str? { assert ReadsId(rules, v, rules.nfkc(v.text)) <==> RequireStableId(rules, v, AnswerOption).Success?; }
    }
    if content.Object? { assert OnlyKeys(content.fields, {OPTIONS}) <==> Plain(content, {OPTIONS}); }
  }

  ghost predicate ContentProblem(rules: TextRules, content: JsValue, key: Text, p: Problem) {
    if !content.Object? then p == Problem(ObjectRequired, Content)
    else if !Plain(content, {key}) then p == Problem(UnknownField, Content)
    else if !Get(content.fields, key).Array? then p == Problem(ArrayRequired, Items)
    else if |Get(content.fields, key).items| < 2 then p == Problem(ArrayTooSmall, Items)
    else if |Get(content.fields, key).items| > 100 then p == Problem(ArrayTooLarge, Items)
    else AllItems(rules, Get(content.fields, key).items) == Failure(p)
  }

  /** The arrangement is refused for its content first, then for its answer. */
  lemma ArrangementProblem(rules: TextRules, content: JsValue, answer: JsValue)
    requires ValidArrangement(rules, content, answer).Failure?
    ensures var p := ValidArrangement(rules, content, answer).error;
      if ContentItems(rules, content, TOKENS).Failure? then ContentProblem(rules, content, TOKENS, p)
      else if !answer.Object? then p == Problem(ObjectRequired, Answer)
      else if !Plain(answer, {TOKEN_IDS}) then p == Problem(UnknownField, Answer)
      else if !Get(answer.fields, TOKEN_IDS).Array? then p == Problem(ArrayRequired, AnswerTokens)
      else if |Get(answer.fields, TOKEN_IDS).items| == 0 then p == Problem(ArrayTooSmall, AnswerTokens)
      else if |Get(answer.fields, TOKEN_IDS).items| > 100 then p == Problem(ArrayTooLarge, AnswerTokens)
      else (
        || p == Problem(InvalidTokenSet, AnswerTokens)
        || AllTokenIds(rules, Get(answer.fields, TOKEN_IDS).items) == Failure(p))
  {
    hide AllItems, AllTokenIds;
    if answer.Object? { assert OnlyKeys(answer.fields, {TOKEN_IDS}) <==> Plain(answer, {TOKEN_IDS}); }
    if content.Object? { assert OnlyKeys(content.fields, {TOKENS}) <==> Plain(content, {TOKENS}); }
  }
}
