/** Rewriting the Cookie header of a request after a refresh (session-refresh.ts). */
module Cookies {
  import opened Outcomes

  datatype Cookie = Cookie(name: string, value: string)

  /** What String.prototype.trim removes. */
  predicate Space(c: char) {
    '\t' <= c <= '\r' || c == ' ' || c == '\U{A0}' || c == '\U{1680}' || '\U{2000}' <= c <= '\U{200A}'
    || c == '\U{2028}' || c == '\U{2029}' || c == '\U{202F}' || c == '\U{205F}' || c == '\U{3000}' || c == '\U{FEFF}'
  }

  function TrimStart(s: string): string {
    if s != [] && Space(s[0]) then TrimStart(s[1..]) else s
  }

  function TrimEnd(s: string): string {
    if s != [] && Space(s[|s| - 1]) then TrimEnd(s[..|s| - 1]) else s
  }

  function Trim(s: string): string { TrimEnd(TrimStart(s)) }

  function Split(s: string, separator: char): (parts: seq<string>)
    ensures parts != []
  {
    if s == [] then [[]]
    else
      var rest := Split(s[1..], separator);
      if s[0] == separator then [[]] + rest else [[s[0]] + rest[0]] + rest[1..]
  }

  /** Position of the first c, or the length when there is none (where the source gets -1). */
  function IndexOf(s: string, c: char): (i: nat)
    ensures i <= |s| && (i < |s| ==> s[i] == c) && c !in s[..i]
  {
    if s == [] || s[0] == c then 0 else 1 + IndexOf(s[1..], c)
  }

  // ----- The cookie map, in insertion order -----

  function Position(cookies: seq<Cookie>, name: string): (i: nat)
    ensures i <= |cookies| && (i < |cookies| ==> cookies[i].name == name)
    ensures forall j | 0 <= j < i :: cookies[j].name != name
  {
    if cookies == [] || cookies[0].name == name then 0 else 1 + Position(cookies[1..], name)
  }

  /** Map.set: an existing name keeps its place. */
  function Set(cookies: seq<Cookie>, name: string, value: string): seq<Cookie> {
    var i := Position(cookies, name);
    if i < |cookies| then cookies[i := Cookie(name, value)] else cookies + [Cookie(name, value)]
  }

  function Delete(cookies: seq<Cookie>, name: string): seq<Cookie> {
    var i := Position(cookies, name);
    if i < |cookies| then cookies[..i] + cookies[i + 1..] else cookies
  }

  function Lookup(cookies: seq<Cookie>, name: string): Option<string> {
    var i := Position(cookies, name);
    if i < |cookies| then Some(cookies[i].value) else None
  }

  function ReadPart(cookies: seq<Cookie>, part: string): seq<Cookie> {
    var trimmed := Trim(part);
    var eq := IndexOf(trimmed, '=');
    if 0 < eq < |trimmed| then Set(cookies, Trim(trimmed[..eq]), Trim(trimmed[eq + 1..])) else cookies
  }

  function ReadParts(cookies: seq<Cookie>, parts: seq<string>): seq<Cookie> {
    if parts == [] then cookies
    else ReadPart(ReadParts(cookies, parts[..|parts| - 1]), parts[|parts| - 1])
  }

  function ReadHeader(header: Option<string>): seq<Cookie> {
    if header.None? || header.value == [] then [] else ReadParts([], Split(header.value, ';'))
  }

  datatype Update = Update(name: string, value: Option<string>)

  function Apply(cookies: seq<Cookie>, update: Update): seq<Cookie> {
    if update.value.None? then Delete(cookies, update.name) else Set(cookies, update.name, update.value.value)
  }

  function ApplyAll(cookies: seq<Cookie>, updates: seq<Update>): seq<Cookie> {
    if updates == [] then cookies
    else Apply(ApplyAll(cookies, updates[..|updates| - 1]), updates[|updates| - 1])
  }

  function Write(c: Cookie): string { c.name + "=" + c.value }

  function WriteHeader(cookies: seq<Cookie>): string {
    if cookies == [] then []
    else if |cookies| == 1 then Write(cookies[0])
    else Write(cookies[0]) + "; " + WriteHeader(cookies[1..])
  }

  lemma NextPart(parts: seq<string>, index: nat, cookies: seq<Cookie>)
    requires index < |parts| && cookies == ReadParts([], parts[..index])
    ensures ReadPart(cookies, parts[index]) == ReadParts([], parts[..index + 1])
  {
    hide ReadPart;
    assert parts[..index + 1][..index] == parts[..index];
  }

  lemma NextUpdate(cookies: seq<Cookie>, updates: seq<Update>, index: nat)
    requires index < |updates|
    ensures Apply(ApplyAll(cookies, updates[..index]), updates[index]) == ApplyAll(cookies, updates[..index + 1])
  {
    hide Apply;
    assert updates[..index + 1][..index] == updates[..index];
  }

  method ParseCookies(header: string) returns (cookies: seq<Cookie>)
    ensures cookies == ReadParts([], Split(header, ';'))
  {
    hide Split, Trim, IndexOf, Set, ReadParts;
    cookies := [];
    var parts := Split(header, ';');
    var index := 0;
    NoParts();
    while index < |parts|
      invariant 0 <= index <= |parts| && cookies == ReadParts([], parts[..index])
    {
      NextPart(parts, index, cookies);
      var trimmed := Trim(parts[index]);
      var eq := IndexOf(trimmed, '=');
      if 0 < eq < |trimmed| { cookies := Set(cookies, Trim(trimmed[..eq]), Trim(trimmed[eq + 1..])); }
      index := index + 1;
    }
    assert parts[..index] == parts;
  }

  lemma NoParts()
    ensures ReadParts([], []) == []
  {
  }

  method UpdateCookieHeader(header: Option<string>, updates: seq<Update>) returns (text: string)
    ensures text == WriteHeader(ApplyAll(ReadHeader(header), updates))
  {
    hide Apply, ReadParts, Split, WriteHeader;
    var cookies: seq<Cookie> := [];
    if header.Some? && header.value != [] { cookies := ParseCookies(header.value); }
    ghost var read := cookies;
    var index := 0;
    while index < |updates|
      invariant 0 <= index <= |updates| && cookies == ApplyAll(read, updates[..index])
    {
      NextUpdate(read, updates, index);
      cookies := Apply(cookies, updates[index]);
      index := index + 1;
    }
    assert updates[..index] == updates;
    text := WriteHeader(cookies);
  }

  // ----- What the next reader of the header sees -----

  predicate Trimmed(s: string) { s == [] || (!Space(s[0]) && !Space(s[|s| - 1])) }

  predicate CleanName(name: string) { name != [] && Trimmed(name) && ';' !in name && '=' !in name }

  predicate CleanValue(value: string) { Trimmed(value) && ';' !in value }

  ghost predicate Clean(cookies: seq<Cookie>) {
    && (forall i | 0 <= i < |cookies| :: CleanName(cookies[i].name) && CleanValue(cookies[i].value))
    && (forall i, j | 0 <= i < j < |cookies| :: cookies[i].name != cookies[j].name)
  }

  lemma {:induction false} TrimStartExact(s: string)
    ensures TrimStart(s) == [] || !Space(TrimStart(s)[0])
    ensures exists k :: 0 <= k <= |s| && TrimStart(s) == s[k..]
  {
    if s != [] && Space(s[0]) {
      TrimStartExact(s[1..]);
      var k :| 0 <= k <= |s[1..]| && TrimStart(s[1..]) == s[1..][k..];
      assert s[1..][k..] == s[k + 1..];
    } else {
      assert s == s[0..];
    }
  }

  lemma {:induction false} TrimEndExact(s: string)
    requires s == [] || !Space(s[0])
    ensures Trimmed(TrimEnd(s)) && TrimEnd(s) <= s
  {
    if s != [] && Space(s[|s| - 1]) { TrimEndExact(s[..|s| - 1]); }
  }

  lemma TrimStays(s: string)
    requires Trimmed(s)
    ensures Trim(s) == s
  {
    hide Space;
  }

  lemma TrimExact(s: string)
    ensures Trimmed(Trim(s)) && (forall c | c in Trim(s) :: c in s)
    ensures Trimmed(s) ==> Trim(s) == s
  {
    if Trimmed(s) { TrimStays(s); }
    hide Space, TrimStart, TrimEnd, Trimmed;
    TrimStartExact(s);
    TrimEndExact(TrimStart(s));
  }

  lemma {:induction false} NoSemicolon(s: string)
    ensures forall i | 0 <= i < |Split(s, ';')| :: ';' !in Split(s, ';')[i]
  {
    if s != [] {
      NoSemicolon(s[1..]);
      var rest := Split(s[1..], ';');
      var parts := Split(s, ';');
      forall i | 0 <= i < |parts| ensures ';' !in parts[i] {
        if s[0] == ';' {
          if i > 0 { assert parts[i] == rest[i - 1]; }
        } else if i > 0 {
          assert parts[i] == rest[i];
        } else {
          assert parts[0] == [s[0]] + rest[0];
        }
      }
    }
  }

  lemma SetKeepsClean(cookies: seq<Cookie>, name: string, value: string)
    requires Clean(cookies) && CleanName(name) && CleanValue(value)
    ensures Clean(Set(cookies, name, value))
  {
  }

  lemma DeleteKeepsClean(cookies: seq<Cookie>, name: string)
    requires Clean(cookies)
    ensures Clean(Delete(cookies, name))
  {
    hide CleanName, CleanValue, Position;
    var i, after := Position(cookies, name), Delete(cookies, name);
    forall j | 0 <= j < |after| ensures after[j] == cookies[if j < i then j else j + 1] {}
  }

  lemma ReadPartKeepsClean(cookies: seq<Cookie>, part: string)
    requires Clean(cookies) && ';' !in part
    ensures Clean(ReadPart(cookies, part))
  {
    hide Clean, Trim, Set;
    var trimmed := Trim(part);
    TrimExact(part);
    var eq := IndexOf(trimmed, '=');
    if 0 < eq < |trimmed| {
      var left, right := trimmed[..eq], trimmed[eq + 1..];
      TrimExact(left);
      TrimExact(right);
      NonemptyTrim(left);
      assert CleanName(Trim(left)) && CleanValue(Trim(right));
      SetKeepsClean(cookies, Trim(left), Trim(right));
    }
  }

  lemma {:induction false} NonemptyTrim(s: string)
    requires s != [] && !Space(s[0])
    ensures Trim(s) != []
  {
    TrimEndNonempty(s);
  }

  lemma {:induction false} TrimEndNonempty(s: string)
    requires s != [] && !Space(s[0])
    ensures TrimEnd(s) != []
  {
    if Space(s[|s| - 1]) { TrimEndNonempty(s[..|s| - 1]); }
  }

  lemma {:induction false} ReadPartsClean(parts: seq<string>)
    requires forall i | 0 <= i < |parts| :: ';' !in parts[i]
    ensures Clean(ReadParts([], parts))
  {
    if parts != [] {
      ReadPartsClean(parts[..|parts| - 1]);
      ReadPartKeepsClean(ReadParts([], parts[..|parts| - 1]), parts[|parts| - 1]);
    }
  }

  lemma ReadHeaderClean(header: Option<string>)
    ensures Clean(ReadHeader(header))
  {
    if header.Some? && header.value != [] {
      NoSemicolon(header.value);
      ReadPartsClean(Split(header.value, ';'));
    }
  }

  ghost predicate CleanUpdates(updates: seq<Update>) {
    forall i | 0 <= i < |updates| ::
      CleanName(updates[i].name) && (updates[i].value.Some? ==> CleanValue(updates[i].value.value))
  }

  lemma {:induction false} ApplyAllClean(cookies: seq<Cookie>, updates: seq<Update>)
    requires Clean(cookies) && CleanUpdates(updates)
    ensures Clean(ApplyAll(cookies, updates))
  {
    hide Clean;
    if updates != [] {
      var front, last := updates[..|updates| - 1], updates[|updates| - 1];
      ApplyAllClean(cookies, front);
      if last.value.None? { DeleteKeepsClean(ApplyAll(cookies, front), last.name); }
      else { SetKeepsClean(ApplyAll(cookies, front), last.name, last.value.value); }
    }
  }

  lemma {:induction false} SplitHead(part: string, rest: string)
    requires ';' !in part
    ensures Split(part + ";" + rest, ';') == [part] + Split(rest, ';')
  {
    var s := part + ";" + rest;
    if part == [] {
      assert s[1..] == rest;
    } else {
      SplitHead(part[1..], rest);
      assert s[1..] == part[1..] + ";" + rest;
      assert s[0] == part[0] && s[0] != ';';
      var later := Split(s[1..], ';');
      assert later[0] == part[1..] && later[1..] == Split(rest, ';');
      assert part == [part[0]] + part[1..];
    }
  }

  lemma {:induction false} SplitWhole(part: string)
    requires ';' !in part
    ensures Split(part, ';') == [part]
  {
    if part != [] {
      SplitWhole(part[1..]);
      assert part == [part[0]] + part[1..];
      assert Split(part, ';') == [[part[0]] + part[1..]] + [part[1..]][1..];
      assert [part[1..]][1..] == [];
    } else {
      assert part == "";
    }
  }

  lemma {:induction false} IndexOfJoined(name: string, c: char, rest: string)
    requires c !in name
    ensures IndexOf(name + [c] + rest, c) == |name|
  {
    var s := name + [c] + rest;
    if name != [] {
      assert s[1..] == name[1..] + [c] + rest;
      IndexOfJoined(name[1..], c, rest);
    }
  }

  /** The part spells the cookie, with or without the space after a semicolon. */
  predicate Spells(part: string, c: Cookie) {
    part == Write(c) || part == " " + Write(c)
  }

  /** One written cookie, with or without the space after the separator, reads back as itself. */
  lemma PartReadsBack(cookies: seq<Cookie>, c: Cookie, part: string)
    requires CleanName(c.name) && CleanValue(c.value)
    requires Spells(part, c)
    requires forall i | 0 <= i < |cookies| :: cookies[i].name != c.name
    ensures ReadPart(cookies, part) == cookies + [c]
  {
    var text := Write(c);
    assert Trimmed(text);
    TrimExact(text);
    if part == " " + text {
      assert part[1..] == text;
      assert TrimStart(part) == TrimStart(text);
    }
    IndexOfJoined(c.name, '=', c.value);
    assert text[..|c.name|] == c.name && text[|c.name| + 1..] == c.value;
    TrimExact(c.name);
    TrimExact(c.value);
  }

  /** The parts a written header splits into, from its second cookie on. */
  function Parts(cookies: seq<Cookie>): (parts: seq<string>)
    ensures |parts| == |cookies| && forall i | 0 <= i < |cookies| :: parts[i] == " " + Write(cookies[i])
  {
    seq(|cookies|, i requires 0 <= i < |cookies| => " " + Write(cookies[i]))
  }

  lemma WriteHasNoSemicolon(c: Cookie)
    requires CleanName(c.name) && CleanValue(c.value)
    ensures ';' !in Write(c) && ';' !in " " + Write(c)
  {
  }

  lemma {:induction false} SplitWritten(cookies: seq<Cookie>)
    requires cookies != []
    requires forall i | 0 <= i < |cookies| :: CleanName(cookies[i].name) && CleanValue(cookies[i].value)
    ensures Split(WriteHeader(cookies), ';') == [Write(cookies[0])] + Parts(cookies[1..])
    ensures Split(" " + WriteHeader(cookies), ';') == Parts(cookies)
  {
    hide CleanName, CleanValue, Split;
    var first := Write(cookies[0]);
    WriteHasNoSemicolon(cookies[0]);
    if |cookies| == 1 {
      SplitWhole(first);
      SplitWhole(" " + first);
      assert Parts(cookies) == [" " + first];
    } else {
      var rest := " " + WriteHeader(cookies[1..]);
      SplitWritten(cookies[1..]);
      SplitHead(first, rest);
      SplitHead(" " + first, rest);
      assert WriteHeader(cookies) == first + ";" + rest;
      assert " " + WriteHeader(cookies) == (" " + first) + ";" + rest;
      assert Parts(cookies) == [" " + first] + Parts(cookies[1..]);
    }
  }

  lemma CleanParts(cookies: seq<Cookie>, n: nat)
    requires Clean(cookies) && n < |cookies|
    ensures Clean(cookies[..n]) && CleanName(cookies[n].name) && CleanValue(cookies[n].value)
    ensures forall i | 0 <= i < n :: cookies[..n][i].name != cookies[n].name
  {
    hide CleanName, CleanValue;
  }

  lemma LastPartReadsBack(parts: seq<string>, cookies: seq<Cookie>, n: nat)
    requires Clean(cookies) && n < |cookies| == |parts| && Spells(parts[n], cookies[n])
    requires ReadParts([], parts[..n]) == cookies[..n]
    ensures ReadParts([], parts[..n + 1]) == cookies[..n + 1]
  {
    hide CleanName, CleanValue, Write, ReadPart, ReadParts, Clean, Spells;
    CleanParts(cookies, n);
    NextPart(parts, n, cookies[..n]);
    PartReadsBack(cookies[..n], cookies[n], parts[n]);
    assert cookies[..n + 1] == cookies[..n] + [cookies[n]];
  }

  lemma {:induction false} PartsReadBack(parts: seq<string>, cookies: seq<Cookie>, n: nat)
    requires Clean(cookies) && n <= |parts| == |cookies|
    requires forall i | 0 <= i < |cookies| :: Spells(parts[i], cookies[i])
    ensures ReadParts([], parts[..n]) == cookies[..n]
  {
    hide ReadParts, Clean, Spells;
    if n == 0 {
      NoParts();
    } else {
      PartsReadBack(parts, cookies, n - 1);
      LastPartReadsBack(parts, cookies, n - 1);
    }
  }

  lemma WrittenSpells(cookies: seq<Cookie>)
    requires cookies != []
    ensures var parts := [Write(cookies[0])] + Parts(cookies[1..]);
      |parts| == |cookies| && forall i | 0 <= i < |cookies| :: Spells(parts[i], cookies[i])
  {
  }

  lemma WrittenReadsBack(cookies: seq<Cookie>)
    requires Clean(cookies)
    ensures ReadHeader(Some(WriteHeader(cookies))) == cookies
  {
    if cookies != [] {
      SplitWritten(cookies);
      WrittenSpells(cookies);
      var parts := Split(WriteHeader(cookies), ';');
      PartsReadBack(parts, cookies, |parts|);
      assert parts[..|parts|] == parts && cookies[..|cookies|] == cookies;
    }
  }

  /** A reader of the rewritten header sees the old cookies with the updates applied. */
  lemma HeaderRoundTrip(header: Option<string>, updates: seq<Update>)
    requires CleanUpdates(updates)
    ensures ReadHeader(Some(WriteHeader(ApplyAll(ReadHeader(header), updates)))) ==
      ApplyAll(ReadHeader(header), updates)
  {
    ReadHeaderClean(header);
    ApplyAllClean(ReadHeader(header), updates);
    WrittenReadsBack(ApplyAll(ReadHeader(header), updates));
  }

  lemma SetExact(cookies: seq<Cookie>, name: string, value: string, other: string)
    requires Clean(cookies)
    ensures Lookup(Set(cookies, name, value), other) == if other == name then Some(value) else Lookup(cookies, other)
  {
    hide Position, CleanName, CleanValue;
    var i, p, after := Position(cookies, other), Position(cookies, name), Set(cookies, name, value);
    forall j | 0 <= j < |cookies| && j != p ensures after[j] == cookies[j] {}
    LookupAt(after, other, if other == name then p else if i < |cookies| then i else |after|);
  }

  lemma DeleteExact(cookies: seq<Cookie>, name: string, other: string)
    requires Clean(cookies)
    ensures Lookup(Delete(cookies, name), other) == if other == name then None else Lookup(cookies, other)
  {
    hide Position, CleanName, CleanValue;
    var i, p, after := Position(cookies, other), Position(cookies, name), Delete(cookies, name);
    forall j | 0 <= j < |after| ensures after[j] == cookies[if j < p then j else j + 1] {}
    if other == name {
      forall j | 0 <= j < |after| ensures after[j].name != other {}
    } else if i < |cookies| {
      LookupAt(after, other, if p < i then i - 1 else i);
    } else {
      forall j | 0 <= j < |after| ensures after[j].name != other {}
    }
  }

  /** The first place with the name is the one looked up. */
  lemma LookupAt(cookies: seq<Cookie>, name: string, i: nat)
    requires i < |cookies| ==> cookies[i].name == name
    requires forall j | 0 <= j < i && j < |cookies| :: cookies[j].name != name
    ensures Lookup(cookies, name) == if i < |cookies| then Some(cookies[i].value) else None
  {
  }

  /** One update: its own cookie changes as told, every other cookie keeps its value. */
  lemma ApplyExact(cookies: seq<Cookie>, update: Update, name: string)
    requires Clean(cookies)
    ensures Lookup(Apply(cookies, update), name) == if name == update.name then update.value else Lookup(cookies, name)
  {
    hide Lookup, Set, Delete;
    match update.value
    case None => DeleteExact(cookies, update.name, name);
    case Some(value) => SetExact(cookies, update.name, value, name);
  }
}
