/** Which value each name has after a header is parsed and updated (session-refresh.ts). */
module CookieUpdates {
  import opened Outcomes
  import opened Cookies

  /** Place i holds the last update of the name. */
  ghost predicate LastUpdate(updates: seq<Update>, name: string, i: nat) {
    && i < |updates| && updates[i].name == name
    && forall j | i < j < |updates| :: updates[j].name != name
  }

  /** The last update of a name decides its value; a name no update mentions keeps the old one. */
  lemma {:induction false} UpdatesExact(cookies: seq<Cookie>, updates: seq<Update>, name: string)
    requires Clean(cookies) && CleanUpdates(updates)
    ensures forall i: nat | LastUpdate(updates, name, i) :: Lookup(ApplyAll(cookies, updates), name) == updates[i].value
    ensures (forall i | 0 <= i < |updates| :: updates[i].name != name) ==>
      Lookup(ApplyAll(cookies, updates), name) == Lookup(cookies, name)
  {
    hide Lookup, Apply, Clean;
    if updates != [] {
      var front, last := updates[..|updates| - 1], updates[|updates| - 1];
      assert CleanUpdates(front);
      ApplyAllClean(cookies, front);
      UpdatesExact(cookies, front, name);
      ApplyExact(ApplyAll(cookies, front), last, name);
      forall i: nat | LastUpdate(updates, name, i)
        ensures Lookup(ApplyAll(cookies, updates), name) == updates[i].value
      {
        if i < |front| { assert LastUpdate(front, name, i); }
      }
    }
  }

  // ----- Parsing -----

  /** The part gives the name this value: cut at its first '=', both sides trimmed. */
  ghost predicate Gives(part: string, name: string, value: string) {
    var t := Trim(part);
    exists k :: 0 < k < |t| && t[k] == '=' && '=' !in t[..k] && Trim(t[..k]) == name && Trim(t[k + 1..]) == value
  }

  ghost predicate GivesSome(part: string, name: string) {
    exists value :: Gives(part, name, value)
  }

  lemma {:induction false} FirstEquals(t: string, k: nat)
    requires k < |t| && t[k] == '=' && '=' !in t[..k]
    ensures IndexOf(t, '=') == k
  {
    if k > 0 {
      assert t[..k][0] == t[0] && t[1..][..k - 1] == t[..k][1..];
      FirstEquals(t[1..], k - 1);
    }
  }

  lemma ReadPartExact(cookies: seq<Cookie>, part: string, name: string)
    requires Clean(cookies)
    ensures forall value | Gives(part, name, value) :: Lookup(ReadPart(cookies, part), name) == Some(value)
    ensures !GivesSome(part, name) ==> Lookup(ReadPart(cookies, part), name) == Lookup(cookies, name)
  {
    hide Clean, Set, Lookup, Trim;
    var t := Trim(part);
    var eq := IndexOf(t, '=');
    if 0 < eq < |t| {
      SetExact(cookies, Trim(t[..eq]), Trim(t[eq + 1..]), name);
      if Trim(t[..eq]) == name { assert Gives(part, name, Trim(t[eq + 1..])); }
    }
    forall value | Gives(part, name, value) ensures Lookup(ReadPart(cookies, part), name) == Some(value) {
      var k :| 0 < k < |t| && t[k] == '=' && '=' !in t[..k] && Trim(t[..k]) == name && Trim(t[k + 1..]) == value;
      FirstEquals(t, k);
    }
  }

  /** Place i holds the last part that gives the name a value. */
  ghost predicate LastGiven(parts: seq<string>, name: string, i: nat) {
    i < |parts| && GivesSome(parts[i], name) && forall j | i < j < |parts| :: !GivesSome(parts[j], name)
  }

  /** The name has the value of the last part that gives it one, and none if no part does. */
  ghost predicate LastGivenCounts(cookies: seq<Cookie>, parts: seq<string>, name: string) {
    && (forall i: nat, value | LastGiven(parts, name, i) && Gives(parts[i], name, value) ::
          Lookup(cookies, name) == Some(value))
    && ((forall i | 0 <= i < |parts| :: !GivesSome(parts[i], name)) ==> Lookup(cookies, name) == None)
  }

  lemma {:induction false} PartsExact(parts: seq<string>, name: string)
    requires forall i | 0 <= i < |parts| :: ';' !in parts[i]
    ensures LastGivenCounts(ReadParts([], parts), parts, name)
  {
    hide ReadPart, Gives, GivesSome;
    if parts != [] {
      var front, last := parts[..|parts| - 1], parts[|parts| - 1];
      PartsExact(front, name);
      ReadPartsClean(front);
      hide Clean, Lookup;
      ReadPartExact(ReadParts([], front), last, name);
      forall i: nat, value | LastGiven(parts, name, i) && Gives(parts[i], name, value)
        ensures Lookup(ReadParts([], parts), name) == Some(value)
      {
        if i < |front| { assert LastGiven(front, name, i) && Gives(front[i], name, value); }
      }
    }
  }

  /** A parsed header gives each name the value of the last part that names it. */
  lemma HeaderExact(header: string, name: string)
    requires header != []
    ensures LastGivenCounts(ReadHeader(Some(header)), Split(header, ';'), name)
  {
    hide LastGivenCounts;
    NoSemicolon(header);
    PartsExact(Split(header, ';'), name);
  }

  // ----- Trimming and splitting -----

  predicate Blank(s: string) {
    forall c | c in s :: Space(c)
  }

  lemma {:induction false} TrimStartCuts(s: string) returns (cut: string)
    ensures Blank(cut) && s == cut + TrimStart(s)
  {
    cut := "";
    if s != [] && Space(s[0]) {
      cut := TrimStartCuts(s[1..]);
      cut := [s[0]] + cut;
      assert s == [s[0]] + s[1..];
    }
  }

  lemma {:induction false} TrimEndCuts(s: string) returns (cut: string)
    ensures Blank(cut) && s == TrimEnd(s) + cut
  {
    cut := "";
    if s != [] && Space(s[|s| - 1]) {
      cut := TrimEndCuts(s[..|s| - 1]);
      cut := cut + [s[|s| - 1]];
      assert s == s[..|s| - 1] + [s[|s| - 1]];
    }
  }

  /** Trimming cuts white space off both ends, all of it, and nothing else. */
  lemma TrimCuts(s: string) returns (before: string, after: string)
    ensures Blank(before) && Blank(after) && s == before + Trim(s) + after && Trimmed(Trim(s))
  {
    TrimExact(s);
    hide Space, TrimStart, TrimEnd, Blank, Trimmed;
    before := TrimStartCuts(s);
    after := TrimEndCuts(TrimStart(s));
  }

  function Joined(parts: seq<string>): string
    requires parts != []
  {
    if |parts| == 1 then parts[0] else parts[0] + ";" + Joined(parts[1..])
  }

  /** The parts are the pieces between the semicolons, in order. */
  lemma {:induction false} SplitExact(s: string)
    ensures Joined(Split(s, ';')) == s && forall i | 0 <= i < |Split(s, ';')| :: ';' !in Split(s, ';')[i]
  {
    NoSemicolon(s);
    if s != [] {
      SplitExact(s[1..]);
      var rest := Split(s[1..], ';');
      assert s == [s[0]] + s[1..];
      if s[0] == ';' {
        assert Split(s, ';')[1..] == rest;
      } else {
        var parts := [[s[0]] + rest[0]] + rest[1..];
        assert parts[1..] == rest[1..];
      }
    }
  }
}
