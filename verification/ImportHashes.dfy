/** What the preview hash of an import tells apart, and what follows for commits under a used
    Idempotency-Key (exercise-import.service.ts, lesson-exercise-import.ts). */
module ImportHashes {
  import opened Outcomes
  import opened JsonValues
  import opened ExerciseAuthoring
  import opened ExerciseImport

  // ----- Which rows of a file are kept -----

  /** The row is valid and no other valid row has its source key. */
  ghost predicate Alone(verdicts: seq<Verdict>, i: nat) {
    && i < |verdicts| && verdicts[i].Valid?
    && forall j | 0 <= j < |verdicts| && j != i && verdicts[j].Valid? ::
         verdicts[j].row.sourceKey != verdicts[i].row.sourceKey
  }

  ghost predicate Ascending(places: seq<nat>) {
    forall a, b | 0 <= a < b < |places| :: places[a] < places[b]
  }

  /** `rows` are the rows at these places, which are those below n that stand alone. */
  ghost predicate KeptAt(all: seq<Verdict>, n: nat, places: seq<nat>, rows: seq<Row>) {
    && Ascending(places) && |places| == |rows|
    && (forall k | 0 <= k < |places| :: places[k] < n && Alone(all, places[k]) && all[places[k]] == Valid(rows[k]))
    && (forall i: nat | i < n && Alone(all, i) :: i in places)
  }

  /** The error of row i of a file, whose number counts from one. */
  ghost predicate ErrorOf(all: seq<Verdict>, i: nat, error: RowError)
    requires i < |all|
  {
    error == match all[i]
      case Invalid(code, path) => RowError(i + 1, code, path)
      case Valid(_) => RowError(i + 1, "duplicate_source_key", "sourceKey")
  }

  /** `errors` are the errors of the rows at these places, which are those below n not kept. */
  ghost predicate RefusedAt(all: seq<Verdict>, n: nat, places: seq<nat>, errors: seq<RowError>) {
    && Ascending(places) && |places| == |errors|
    && (forall k | 0 <= k < |places| ::
          places[k] < n && places[k] < |all| && !Alone(all, places[k]) && ErrorOf(all, places[k], errors[k]))
    && (forall i: nat | i < n && !Alone(all, i) :: i in places)
  }

  lemma {:induction false} CountPositive(verdicts: seq<Verdict>, key: string, j: nat)
    requires j < |verdicts| && verdicts[j].Valid? && verdicts[j].row.sourceKey == key
    ensures KeyCount(verdicts, key) == KeyCount(verdicts[..j] + verdicts[j + 1..], key) + 1
  {
    var last := |verdicts| - 1;
    if j < last {
      CountPositive(verdicts[..last], key, j);
      var rest := verdicts[..j] + verdicts[j + 1..];
      assert rest[..|rest| - 1] == verdicts[..last][..j] + verdicts[..last][j + 1..];
    } else {
      assert verdicts[..j] + verdicts[j + 1..] == verdicts[..last];
    }
  }

  lemma {:induction false} CountZero(verdicts: seq<Verdict>, key: string)
    ensures KeyCount(verdicts, key) == 0 <==>
      forall j | 0 <= j < |verdicts| && verdicts[j].Valid? :: verdicts[j].row.sourceKey != key
  {
    if verdicts != [] {
      var front := verdicts[..|verdicts| - 1];
      CountZero(front, key);
      assert forall j | 0 <= j < |front| :: front[j] == verdicts[j];
    }
  }

  /** Counting a key once says that its row stands alone. */
  lemma CountOneIsAlone(all: seq<Verdict>, i: nat)
    requires i < |all| && all[i].Valid?
    ensures KeyCount(all, all[i].row.sourceKey) == 1 <==> Alone(all, i)
  {
    hide KeyCount;
    var key, rest := all[i].row.sourceKey, all[..i] + all[i + 1..];
    CountPositive(all, key, i);
    CountZero(rest, key);
    if KeyCount(rest, key) == 0 {
      forall j | 0 <= j < |all| && j != i && all[j].Valid? ensures all[j].row.sourceKey != key {
        assert rest[if j < i then j else j - 1] == all[j];
      }
    } else {
      var j :| 0 <= j < |rest| && rest[j].Valid? && rest[j].row.sourceKey == key;
      assert all[if j < i then j else j + 1] == rest[j];
    }
  }

  lemma KeptGrows(all: seq<Verdict>, n: nat, places: seq<nat>, rows: seq<Row>)
    requires n < |all| && KeptAt(all, n, places, rows)
    ensures Alone(all, n) ==> KeptAt(all, n + 1, places + [n], rows + [all[n].row])
    ensures !Alone(all, n) ==> KeptAt(all, n + 1, places, rows)
  {
    hide Alone;
    if Alone(all, n) {
      AloneIsValid(all, n);
      var more := places + [n];
      forall i: nat | i < n + 1 && Alone(all, i) ensures i in more {
        if i < n { assert i in places; } else { assert more[|places|] == n; }
      }
    }
  }

  lemma AloneIsValid(all: seq<Verdict>, i: nat)
    requires Alone(all, i)
    ensures i < |all| && all[i].Valid?
  {
  }

  lemma RefusedGrows(all: seq<Verdict>, n: nat, places: seq<nat>, errors: seq<RowError>, error: RowError)
    requires n < |all| && RefusedAt(all, n, places, errors)
    ensures !Alone(all, n) && ErrorOf(all, n, error) ==> RefusedAt(all, n + 1, places + [n], errors + [error])
    ensures Alone(all, n) ==> RefusedAt(all, n + 1, places, errors)
  {
    hide Alone, ErrorOf;
    if !Alone(all, n) && ErrorOf(all, n, error) {
      var more := places + [n];
      forall i: nat | i < n + 1 && !Alone(all, i) ensures i in more {
        if i < n { assert i in places; } else { assert more[|places|] == n; }
      }
    }
  }

  lemma {:induction false} KeptUpTo(all: seq<Verdict>, n: nat)
    requires n <= |all|
    ensures exists places: seq<nat> :: KeptAt(all, n, places, Kept(all, all[..n]))
  {
    if n == 0 {
      assert KeptAt(all, 0, [], Kept(all, all[..0]));
    } else {
      KeptUpTo(all, n - 1);
      KeptPrefix(all, n - 1);
      if all[n - 1].Valid? { CountOneIsAlone(all, n - 1); }
      var rows := Kept(all, all[..n - 1]);
      var places: seq<nat> :| KeptAt(all, n - 1, places, rows);
      KeptGrows(all, n - 1, places, rows);
      assert Kept(all, all[..n]) == if Alone(all, n - 1) then rows + [all[n - 1].row] else rows;
      hide KeptAt, KeyCount, Kept, Alone;
    }
  }

  lemma {:induction false} RefusedUpTo(all: seq<Verdict>, n: nat)
    requires n <= |all|
    ensures exists places: seq<nat> :: RefusedAt(all, n, places, Errors(all, all[..n]))
  {
    if n == 0 {
      assert RefusedAt(all, 0, [], Errors(all, all[..0]));
    } else {
      RefusedUpTo(all, n - 1);
      assert all[..n][..n - 1] == all[..n - 1];
      if all[n - 1].Valid? { CountOneIsAlone(all, n - 1); }
      var errors := Errors(all, all[..n - 1]);
      var places: seq<nat> :| RefusedAt(all, n - 1, places, errors);
      var error := match all[n - 1]
        case Invalid(code, path) => RowError(n, code, path)
        case Valid(_) => RowError(n, "duplicate_source_key", "sourceKey");
      assert ErrorOf(all, n - 1, error);
      RefusedGrows(all, n - 1, places, errors, error);
      assert Errors(all, all[..n]) == if Alone(all, n - 1) then errors else errors + [error];
      hide RefusedAt, KeyCount, Errors, Alone, ErrorOf;
    }
  }

  /** Every row of a file is either kept, in file order, or refused with its own error, in file
      order; kept are exactly the valid rows whose source key no other valid row has. */
  lemma RowsSplit(verdicts: seq<Verdict>)
    ensures exists places: seq<nat> :: KeptAt(verdicts, |verdicts|, places, Normalised(verdicts))
    ensures exists places: seq<nat> :: RefusedAt(verdicts, |verdicts|, places, Errors(verdicts, verdicts))
  {
    assert Normalised(verdicts) == Kept(verdicts, verdicts);
    hide KeptAt, RefusedAt, Kept, Errors, Normalised;
    KeptUpTo(verdicts, |verdicts|);
    RefusedUpTo(verdicts, |verdicts|);
    assert verdicts[..|verdicts|] == verdicts;
  }

  // ----- What the hash tells apart -----

  ghost predicate SameRow(a: Row, b: Row) {
    a.sourceKey == b.sourceKey && a.lessonId == b.lessonId && a.topicId == b.topicId
    && SameUpToKeyOrder(a.written.value, b.written.value)
  }

  /** The same import, object keys of the contents in any order. */
  ghost predicate SamePayload(p: Payload, q: Payload) {
    && p.dataSourceId == q.dataSourceId && p.fileName == q.fileName
    && Errors(p.rows, p.rows) == Errors(q.rows, q.rows)
    && |Normalised(p.rows)| == |Normalised(q.rows)|
    && forall i | 0 <= i < |Normalised(p.rows)| :: SameRow(Normalised(p.rows)[i], Normalised(q.rows)[i])
  }

  /** Preview hashes agree exactly for the same import. */
  lemma HashTellsPayload(p: Payload, q: Payload)
    requires PayloadFaithful(p) && PayloadPrints(p) && PayloadFaithful(q) && PayloadPrints(q)
    ensures HashPayload(p) == HashPayload(q) <==> SamePayload(p, q)
  {
    PayloadRowsFaithful(p);
    PayloadRowsFaithful(q);
    PayloadRowsPrint(p);
    PayloadRowsPrint(q);
    var a, b := Normalised(p.rows), Normalised(q.rows);
    hide PayloadFaithful, PayloadPrints, Normalised, Errors, Prints, HashOf, SameUpToKeyOrder;
    var hp, hq := HashPayload(p), HashPayload(q);
    assert |hp.rows| == |a| && |hq.rows| == |b|;
    if |a| == |b| {
      forall i | 0 <= i < |a|
        ensures hp.rows[i] == hq.rows[i] <==> SameRow(a[i], b[i])
      {
        assert Faithful(a[i].written) && Faithful(b[i].written);
        HashTellsContent(a[i].written.value, b[i].written.value);
      }
    }
    if SamePayload(p, q) {
      assert hp.rows == hq.rows;
    }
    if hp == hq {
      forall i | 0 <= i < |a| ensures SameRow(a[i], b[i]) { assert hp.rows[i] == hq.rows[i]; }
    }
  }

  /** A commit under the preview hash of another import is refused and changes nothing. */
  lemma ForeignPreviewConflicts(s: Store, w: World, actor: Actor, p: Payload, q: Payload, key: Option<string>, now: int)
    requires PayloadFaithful(p) && PayloadPrints(p) && PayloadFaithful(q) && PayloadPrints(q)
    requires actor.isAdmin && key.Some? && !SamePayload(p, q)
    ensures Commit(s, w, actor, p, HashPayload(q), key, now) == ImportOutcome(s, Failure(Conflict))
  {
    hide PayloadFaithful, PayloadPrints, HashPayload, SamePayload;
    HashTellsPayload(p, q);
  }

  /** Once an import is committed under a key, no other import, and nobody else's, is ever accepted
      under it, whatever happened in between: the commit fails, with a conflict when its actor and
      source are in order and its preview hash is its own, and changes nothing. */
  lemma UsedKeyConflicts(
      s: Store, w: World, actor: Actor, q: Payload, previewHash: PreviewHash, key: Option<string>, now: int,
      steps: seq<ExerciseImport.Step>, s': Store, w': World, other: Actor, p: Payload, hash: PreviewHash, later: int)
    requires StoreSound(s) && PayloadFaithful(q) && PayloadPrints(q) && PayloadFaithful(p) && PayloadPrints(p)
    requires var first := Commit(s, w, actor, q, previewHash, key, now);
      first.result.Success? && !first.result.value.idempotent && Run(first.store, steps, s')
    requires other.id != actor.id || !SamePayload(p, q)
    ensures var second := Commit(s', w', other, p, hash, key, later);
      && second.result.Failure? && second.store == s'
      && (other.isAdmin && other.id in w'.admins && p.dataSourceId in w'.sources && hash == HashPayload(p) ==>
            second.result.error == Conflict)
  {
    hide PayloadFaithful, PayloadPrints, StoreSound, Run, CatalogueEvolves, HashPayload, SamePayload, InsertedAfter;
    hide Fresh;
    var first := Commit(s, w, actor, q, previewHash, key, now);
    CommitAllOrNothing(s, w, actor, q, previewHash, key, now);
    ImportKeepsStore(s, w, actor, q, previewHash, key, now);
    JobOfImport(s, actor, q, key.value, first.store, first.result.value);
    RunKeepsJobs(first.store, steps, s', key.value);
    HashTellsPayload(p, q);
  }

  lemma JobOfImport(s: Store, actor: Actor, q: Payload, key: string, s': Store, r: Imported)
    requires PayloadPrints(q) && WholeImport(s, actor, q, key, s', r)
    ensures key in s'.jobs && s'.jobs[key].createdById == actor.id && s'.jobs[key].fileChecksum == HashPayload(q)
  {
    hide InsertedAfter, HashPayload;
  }

  // ----- Which imports are accepted -----

  /** The row can be inserted: its source key is free, its lesson and topic are live and belong
      together, and its media exists. */
  ghost predicate RowFits(c: Catalogue, w: World, dataSourceId: nat, row: Row) {
    && (forall id | id in c.exercises :: c.exercises[id].source != Some(Source(dataSourceId, row.sourceKey)))
    && row.lessonId in w.lessons && w.lessons[row.lessonId]
    && (row.topicId.Some? ==>
         && row.topicId.value in w.topics && w.topics[row.topicId.value].lessonId == row.lessonId
         && w.topics[row.topicId.value].isLive)
    && (row.mediaId.Some? ==> row.mediaId.value in w.media)
  }

  lemma RelatesExact(c: Catalogue, w: World, dataSourceId: nat, row: Row)
    ensures Relates(c, w, dataSourceId, row) <==> RowFits(c, w, dataSourceId, row)
  {
  }

  /** Under an unused key an import is committed exactly when its actor is an admin, the preview hash
      is its own, the source exists, no row of the file is refused and every row fits. */
  lemma FreshExact(s: Store, w: World, actor: Actor, p: Payload, previewHash: PreviewHash, key: Option<string>,
      now: int)
    requires PayloadFaithful(p) && PayloadPrints(p) && (key.Some? ==> key.value !in s.jobs)
    ensures Commit(s, w, actor, p, previewHash, key, now).result.Success? <==>
      && actor.isAdmin && actor.id in w.admins && key.Some? && previewHash == HashPayload(p)
      && p.dataSourceId in w.sources && w.constraintsHold
      && (forall i: nat | i < |p.rows| :: Alone(p.rows, i) && RowFits(s.catalogue, w, p.dataSourceId, p.rows[i].row))
  {
    FileFits(s.catalogue, w, p.dataSourceId, p.rows);
    hide PayloadFaithful, PayloadPrints, HashPayload, AllRelate, RowFits, Alone, InsertRows, NewJob, Normalised;
  }

  lemma FileFits(c: Catalogue, w: World, dataSourceId: nat, verdicts: seq<Verdict>)
    ensures |Normalised(verdicts)| == |verdicts| && AllRelate(c, w, dataSourceId, Normalised(verdicts)) <==>
      forall i: nat | i < |verdicts| :: Alone(verdicts, i) && RowFits(c, w, dataSourceId, verdicts[i].row)
  {
    var rows := Normalised(verdicts);
    KeptLength(verdicts, verdicts);
    assert |rows| == |verdicts| ==> forall i | 0 <= i < |rows| :: verdicts[i] == Valid(rows[i]);
    RowsSplit(verdicts);
    hide Normalised, KeptAt, RefusedAt, Relates, RowFits, Errors;
    AllKept(verdicts, rows);
    if |rows| == |verdicts| {
      forall i: nat | i < |rows|
        ensures Relates(c, w, dataSourceId, rows[i]) <==> RowFits(c, w, dataSourceId, verdicts[i].row)
      {
        RelatesExact(c, w, dataSourceId, rows[i]);
      }
      hide Alone;
    }
  }

  lemma AllKept(all: seq<Verdict>, rows: seq<Row>)
    requires exists places: seq<nat> :: KeptAt(all, |all|, places, rows)
    ensures |rows| == |all| <==> forall i: nat | i < |all| :: Alone(all, i)
  {
    hide Alone;
    var places: seq<nat> :| KeptAt(all, |all|, places, rows);
    AscendingBound(places, |all|);
    if forall i: nat | i < |all| :: Alone(all, i) {
      AllPlaces(places, |all|);
    }
    if |rows| == |all| {
      forall i: nat | i < |all| ensures Alone(all, i) { assert places[i] == i && Alone(all, places[i]); }
    }
  }

  /** Ascending places below n are at most n, and n of them are all. */
  lemma {:induction false} AscendingBound(places: seq<nat>, n: nat)
    requires Ascending(places) && forall k | 0 <= k < |places| :: places[k] < n
    ensures |places| <= n && (|places| == n ==> forall k | 0 <= k < n :: places[k] == k)
    decreases |places|
  {
    if places != [] {
      var last := |places| - 1;
      AscendingBound(places[..last], places[last]);
      if |places| == n {
        forall k | 0 <= k < n ensures places[k] == k { if k < last { assert places[..last][k] == places[k]; } }
      }
    }
  }

  lemma {:induction false} AllPlaces(places: seq<nat>, n: nat)
    requires Ascending(places) && (forall k | 0 <= k < |places| :: places[k] < n)
    requires forall i: nat | i < n :: i in places
    ensures |places| == n
    decreases n
  {
    if n > 0 {
      var last := |places| - 1;
      assert n - 1 in places;
      var k :| 0 <= k < |places| && places[k] == n - 1;
      assert places[k] <= places[last];
      var front := places[..last];
      forall i: nat | i < n - 1 ensures i in front {
        assert i in places;
        var j :| 0 <= j < |places| && places[j] == i;
        assert front[j] == i;
      }
      AllPlaces(front, n - 1);
    }
  }
}
