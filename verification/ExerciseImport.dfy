/** All-or-nothing import of lesson exercises, replayed by Idempotency-Key
    (exercise-import.service.ts, lesson-exercise-import.ts). */
module ExerciseImport {
  import opened Outcomes
  import opened Sequences
  import opened ExerciseAuthoring

  /** A normalised row; `written` is its snapshot. */
  datatype Row = Row(sourceKey: string, lessonId: nat, topicId: Option<nat>, mediaId: Option<nat>, written: Written)

  /** What the deterministic row normaliser makes of one raw row. */
  datatype Verdict = Valid(row: Row) | Invalid(code: string, path: string)

  datatype RowError = RowError(rowNumber: nat, code: string, path: string)

  datatype Payload = Payload(dataSourceId: nat, fileName: string, rows: seq<Verdict>)

  datatype RowDigest = RowDigest(sourceKey: string, lessonId: nat, topicId: Option<nat>, content: Hash)

  /** Digest of the normalised payload; distinct payloads have distinct digests. */
  datatype PreviewHash = PreviewHash(dataSourceId: nat, fileName: string, rows: seq<RowDigest>, errors: seq<RowError>)

  datatype Job = Job(
    id: nat, dataSourceId: nat, createdById: nat, ofExercises: bool, completed: bool, fileName: string,
    fileChecksum: PreviewHash,
    totalRows: nat, validRows: nat, errorRows: nat, importedRows: nat, sourceKeys: Option<seq<string>>,
    startedAt: Option<int>, completedAt: Option<int>)

  /** The catalogue and the import jobs by their unique Idempotency-Key. */
  datatype Store = Store(catalogue: Catalogue, jobs: map<string, Job>, nextJob: nat)

  datatype Imported = Imported(jobId: nat, exerciseIds: seq<nat>, importedRows: nat, idempotent: bool)

  datatype ImportOutcome = ImportOutcome(store: Store, result: Result<Imported, Error>)

  // ----- Structural validation -----

  function KeyCount(verdicts: seq<Verdict>, key: string): nat {
    if verdicts == [] then 0 else
    var last := verdicts[|verdicts| - 1];
    KeyCount(verdicts[..|verdicts| - 1], key) + (if last.Valid? && last.row.sourceKey == key then 1 else 0)
  }

  /** Rows of `verdicts` whose source key occurs once in `all`, in order. */
  function Kept(all: seq<Verdict>, verdicts: seq<Verdict>): seq<Row> {
    if verdicts == [] then [] else
    var last := verdicts[|verdicts| - 1];
    Kept(all, verdicts[..|verdicts| - 1])
    + (if last.Valid? && KeyCount(all, last.row.sourceKey) == 1 then [last.row] else [])
  }

  function Normalised(verdicts: seq<Verdict>): seq<Row> {
    Kept(verdicts, verdicts)
  }

  /** A row has at most one structural error, so sorting by row number gives this order. */
  function Errors(all: seq<Verdict>, verdicts: seq<Verdict>): seq<RowError> {
    if verdicts == [] then [] else
    var n := |verdicts|;
    Errors(all, verdicts[..n - 1]) +
      match verdicts[n - 1]
      case Invalid(code, path) => [RowError(n, code, path)]
      case Valid(row) =>
        if KeyCount(all, row.sourceKey) == 1 then [] else [RowError(n, "duplicate_source_key", "sourceKey")]
  }

  predicate PayloadPrints(p: Payload) {
    forall i | 0 <= i < |p.rows| && p.rows[i].Valid? :: Prints(p.rows[i].row.written.value)
  }

  predicate RowsPrint(rows: seq<Row>) {
    forall i | 0 <= i < |rows| :: Prints(rows[i].written.value)
  }

  lemma {:induction false} KeptPrint(all: seq<Verdict>, verdicts: seq<Verdict>)
    requires forall i | 0 <= i < |verdicts| && verdicts[i].Valid? :: Prints(verdicts[i].row.written.value)
    ensures RowsPrint(Kept(all, verdicts))
  {
    hide Prints;
    if verdicts != [] { KeptPrint(all, verdicts[..|verdicts| - 1]); }
  }

  function HashPayload(p: Payload): PreviewHash
    requires PayloadPrints(p)
  {
    KeptPrint(p.rows, p.rows);
    var rows := Normalised(p.rows);
    PreviewHash(p.dataSourceId, p.fileName,
      seq(|rows|, i requires 0 <= i < |rows| && RowsPrint(rows) =>
        RowDigest(rows[i].sourceKey, rows[i].lessonId, rows[i].topicId, HashOf(rows[i].written.value))),
      Errors(p.rows, p.rows))
  }

  function SourceKeys(rows: seq<Row>): (keys: seq<string>)
    ensures |keys| == |rows| && forall i | 0 <= i < |rows| :: keys[i] == rows[i].sourceKey
  {
    seq(|rows|, i requires 0 <= i < |rows| => rows[i].sourceKey)
  }

  // ----- Relational validation and insertion -----

  predicate HasSource(exercises: map<nat, Exercise>, source: Source, id: nat) {
    id in exercises && exercises[id].source == Some(source)
  }

  predicate SourceTaken(exercises: map<nat, Exercise>, source: Source) {
    exists id :: id in exercises && exercises[id].source == Some(source)
  }

  predicate Relates(c: Catalogue, w: World, dataSourceId: nat, row: Row) {
    && !SourceTaken(c.exercises, Source(dataSourceId, row.sourceKey))
    && Coherent(w, row.lessonId, row.topicId).Success?
    && (row.mediaId.Some? ==> row.mediaId.value in w.media)
  }

  predicate AllRelate(c: Catalogue, w: World, dataSourceId: nat, rows: seq<Row>) {
    forall i | 0 <= i < |rows| :: Relates(c, w, dataSourceId, rows[i])
  }

  function InsertRows(c: Catalogue, actorId: nat, dataSourceId: nat, rows: seq<Row>): Catalogue
    requires RowsPrint(rows)
  {
    if rows == [] then c else
    var last := rows[|rows| - 1];
    var before := InsertRows(c, actorId, dataSourceId, rows[..|rows| - 1]);
    AddExercise(before, actorId, last.lessonId, last.topicId, last.written,
                Some(Source(dataSourceId, last.sourceKey)))
  }

  function Range(start: nat, count: nat): (ids: seq<nat>)
    ensures |ids| == count && forall i | 0 <= i < count :: ids[i] == start + i
  {
    seq(count, i requires 0 <= i => start + i)
  }

  function NewJob(s: Store, actor: Actor, p: Payload, now: int): Job
    requires PayloadPrints(p)
  {
    var rows := Normalised(p.rows);
    Job(s.nextJob, p.dataSourceId, actor.id, true, true, p.fileName, HashPayload(p), |p.rows|, |rows|, 0, |rows|,
        Some(SourceKeys(rows)), Some(now), Some(now))
  }

  function Fresh(s: Store, w: World, actor: Actor, p: Payload, key: string, now: int): ImportOutcome
    requires PayloadPrints(p)
  {
    KeptPrint(p.rows, p.rows);
    var rows := Normalised(p.rows);
    if |rows| != |p.rows| || !AllRelate(s.catalogue, w, p.dataSourceId, rows)
    then ImportOutcome(s, Failure(Unprocessable))
    else if !w.constraintsHold then ImportOutcome(s, Failure(Conflict))
    else
      var filled := InsertRows(s.catalogue, actor.id, p.dataSourceId, rows);
      ImportOutcome(
        Store(filled.(audits := Audited(s.catalogue.audits, actor.id, ImportCompleted, s.nextJob)),
              s.jobs[key := NewJob(s, actor, p, now)], s.nextJob + 1),
        Success(Imported(s.nextJob, Range(s.catalogue.nextExercise, |rows|), |rows|, false)))
  }

  // ----- Replay -----

  ghost function Find(exercises: map<nat, Exercise>, source: Source): Option<nat> {
    if SourceTaken(exercises, source) then
      var id :| id in exercises && exercises[id].source == Some(source);
      Some(id)
    else None
  }

  ghost function FindAll(exercises: map<nat, Exercise>, dataSourceId: nat, keys: seq<string>): Option<seq<nat>> {
    if keys == [] then Some([]) else
    var front := FindAll(exercises, dataSourceId, keys[..|keys| - 1]);
    var last := Find(exercises, Source(dataSourceId, keys[|keys| - 1]));
    if front.Some? && last.Some? then Some(front.value + [last.value]) else None
  }

  function NumberOne(revisions: seq<Revision>): nat {
    if revisions == [] then 0
    else NumberOne(revisions[..|revisions| - 1]) + (if revisions[|revisions| - 1].number == 1 then 1 else 0)
  }

  /** COUNT of first revisions whose exercise is in the list. */
  function FirstRevisions(revisions: map<nat, seq<Revision>>, ids: seq<nat>): nat {
    if ids == [] then 0 else
    var front, last := ids[..|ids| - 1], ids[|ids| - 1];
    FirstRevisions(revisions, front) + (if last in front then 0 else NumberOne(RevisionsOf(revisions, last)))
  }

  function CompletionAudits(audits: seq<Audit>, jobId: nat): nat {
    if audits == [] then 0 else
    var last := audits[|audits| - 1];
    CompletionAudits(audits[..|audits| - 1], jobId)
    + (if last.action.ImportCompleted? && last.targetId == jobId then 1 else 0)
  }

  predicate SameRequest(job: Job, actor: Actor, p: Payload)
    requires PayloadPrints(p)
  {
    && job.createdById == actor.id && job.dataSourceId == p.dataSourceId && job.fileName == p.fileName
    && job.fileChecksum == HashPayload(p) && job.ofExercises
  }

  predicate Complete(job: Job, p: Payload) {
    && |Normalised(p.rows)| == |p.rows| && job.completed && job.startedAt.Some? && job.completedAt.Some?
    && job.totalRows == |p.rows| && job.validRows == |p.rows| && job.errorRows == 0 && job.importedRows == |p.rows|
    && job.sourceKeys == Some(SourceKeys(Normalised(p.rows)))
  }

  ghost function Replay(s: Store, job: Job, actor: Actor, p: Payload): Result<Imported, Error>
    requires PayloadPrints(p)
  {
    if !SameRequest(job, actor, p) || job.sourceKeys.None? || !Complete(job, p) then Failure(Conflict) else
    var ids := FindAll(s.catalogue.exercises, p.dataSourceId, job.sourceKeys.value);
    if ids.None? then Failure(Conflict)
    else if FirstRevisions(s.catalogue.revisions, ids.value) != |ids.value|
      || CompletionAudits(s.catalogue.audits, job.id) != 1
    then Failure(Conflict)
    else Success(Imported(job.id, ids.value, job.importedRows, true))
  }

  ghost function Commit(s: Store, w: World, actor: Actor, p: Payload, previewHash: PreviewHash, key: Option<string>,
      now: int): ImportOutcome
    requires PayloadPrints(p)
  {
    if !actor.isAdmin then ImportOutcome(s, Failure(Forbidden))
    else if key.None? then ImportOutcome(s, Failure(Unprocessable))
    else if previewHash != HashPayload(p) then ImportOutcome(s, Failure(Conflict))
    else if actor.id !in w.admins then ImportOutcome(s, Failure(Unauthorized))
    else if p.dataSourceId !in w.sources then ImportOutcome(s, Failure(NotFound))
    else if key.value in s.jobs then ImportOutcome(s, Replay(s, s.jobs[key.value], actor, p))
    else Fresh(s, w, actor, p, key.value, now)
  }

  // ----- The service -----

  predicate SameSource(a: Exercise, b: Exercise) {
    a.source.Some? && a.source == b.source
  }

  /** The unique index on (dataSourceId, sourceKey). */
  predicate SourcesUnique(exercises: map<nat, Exercise>) {
    forall a, b | a in exercises && b in exercises :: SameSource(exercises[a], exercises[b]) ==> a == b
  }

  lemma KeptPrefix(all: seq<Verdict>, n: nat)
    requires n < |all|
    ensures Kept(all, all[..n + 1]) == Kept(all, all[..n])
      + (if all[n].Valid? && KeyCount(all, all[n].row.sourceKey) == 1 then [all[n].row] else [])
    ensures forall key :: (KeyCount(all[..n + 1], key)
      == KeyCount(all[..n], key) + (if all[n].Valid? && all[n].row.sourceKey == key then 1 else 0))
  {
    assert all[..n + 1][..n] == all[..n];
  }

  /** Collect the row numbers of each source key, then keep the rows whose key is theirs alone. */
  method ValidateExerciseImportRows(verdicts: seq<Verdict>) returns (rows: seq<Row>)
    ensures rows == Normalised(verdicts)
  {
    var keyRows: map<string, seq<nat>> := map[];
    var n := 0;
    while n < |verdicts|
      invariant 0 <= n <= |verdicts|
      invariant forall key :: KeyCount(verdicts[..n], key) == if key in keyRows then |keyRows[key]| else 0
    {
      KeptPrefix(verdicts, n);
      if verdicts[n].Valid? {
        var key := verdicts[n].row.sourceKey;
        var rowNumbers := if key in keyRows then keyRows[key] else [];
        keyRows := keyRows[key := rowNumbers + [n + 1]];
      }
      n := n + 1;
    }
    assert verdicts[..n] == verdicts;
    rows := [];
    n := 0;
    while n < |verdicts|
      invariant 0 <= n <= |verdicts| && rows == Kept(verdicts, verdicts[..n])
    {
      KeptPrefix(verdicts, n);
      if verdicts[n].Valid? {
        assert KeyCount(verdicts, verdicts[n].row.sourceKey) ==
          if verdicts[n].row.sourceKey in keyRows then |keyRows[verdicts[n].row.sourceKey]| else 0;
        if verdicts[n].row.sourceKey in keyRows && |keyRows[verdicts[n].row.sourceKey]| < 2 {
          KeyOccurs(verdicts, n);
          rows := rows + [verdicts[n].row];
        }
      }
      n := n + 1;
    }
    assert verdicts[..n] == verdicts;
  }

  lemma {:induction false} KeyOccurs(verdicts: seq<Verdict>, n: nat)
    requires n < |verdicts| && verdicts[n].Valid?
    ensures KeyCount(verdicts, verdicts[n].row.sourceKey) >= 1
  {
    var last := |verdicts| - 1;
    if n < last { KeyOccurs(verdicts[..last], n); }
  }

  class ExerciseImportService {
    const tables: ExerciseAuthoringService
    var jobs: map<string, Job>
    var nextJob: nat

    ghost function Contents(): Store
      reads this, tables
    {
      Store(tables.Contents(), jobs, nextJob)
    }

    constructor (tables: ExerciseAuthoringService)
      ensures this.tables == tables && jobs == map[] && nextJob == 1
    {
      this.tables := tables;
      jobs, nextJob := map[], 1;
    }

    method PrepareImport(w: World, dataSourceId: nat, rows: seq<Row>) returns (valid: bool)
      ensures valid == AllRelate(tables.Contents(), w, dataSourceId, rows)
    {
      var i := 0;
      while i < |rows|
        invariant 0 <= i <= |rows| && AllRelate(tables.Contents(), w, dataSourceId, rows[..i])
      {
        var catalogue :=
          Catalogue(tables.exercises, tables.revisions, tables.audits, tables.nextExercise, tables.nextRevision);
        if !Relates(catalogue, w, dataSourceId, rows[i]) { return false; }
        i := i + 1;
      }
      valid := true;
    }

    /** The insertion loop inside the transaction; a rejected write rolls everything back. */
    method InsertAll(w: World, actor: Actor, dataSourceId: nat, rows: seq<Row>) returns (r: Result<seq<nat>, Error>)
      requires RowsPrint(rows)
      modifies tables
      ensures !w.constraintsHold ==> r == Failure(Conflict) && tables.Contents() == old(tables.Contents())
      ensures w.constraintsHold ==>
        && tables.Contents() == InsertRows(old(tables.Contents()), actor.id, dataSourceId, rows)
        && r == Success(Range(old(tables.nextExercise), |rows|))
    {
      hide Prints, HashOf, AddExercise;
      var exercises, revisions, nextExercise, nextRevision :=
        tables.exercises, tables.revisions, tables.nextExercise, tables.nextRevision;
      ghost var before := tables.Contents();
      var ids: seq<nat> := [];
      var i := 0;
      while i < |rows|
        invariant 0 <= i <= |rows| && RowsPrint(rows[..i])
        invariant tables.Contents() == InsertRows(before, actor.id, dataSourceId, rows[..i])
        invariant tables.audits == before.audits
        invariant tables.nextExercise == before.nextExercise + i && ids == Range(before.nextExercise, i)
      {
        assert rows[..i + 1][..i] == rows[..i];
        AddAdvances(tables.Contents(), actor.id, rows[i].lessonId, rows[i].topicId, rows[i].written,
                    Some(Source(dataSourceId, rows[i].sourceKey)));
        var id := tables.InsertDraft(actor.id, rows[i].lessonId, rows[i].topicId, rows[i].written,
                                     Some(Source(dataSourceId, rows[i].sourceKey)));
        ids := ids + [id];
        i := i + 1;
      }
      assert rows[..i] == rows;
      if !w.constraintsHold {
        tables.exercises, tables.revisions, tables.nextExercise, tables.nextRevision :=
          exercises, revisions, nextExercise, nextRevision;
        return Failure(Conflict);
      }
      r := Success(ids);
    }

    method FindExercisesBySourceKeys(dataSourceId: nat, keys: seq<string>) returns (ids: Option<seq<nat>>)
      requires SourcesUnique(tables.exercises)
      ensures ids == FindAll(tables.exercises, dataSourceId, keys)
    {
      var found: seq<nat> := [];
      var i := 0;
      while i < |keys|
        invariant 0 <= i <= |keys| && FindAll(tables.exercises, dataSourceId, keys[..i]) == Some(found)
      {
        assert keys[..i + 1][..i] == keys[..i];
        var source := Source(dataSourceId, keys[i]);
        if !SourceTaken(tables.exercises, source) {
          FindAllFails(tables.exercises, dataSourceId, keys, i + 1);
          return None;
        }
        var id :| id in tables.exercises && tables.exercises[id].source == Some(source);
        found := found + [id];
        i := i + 1;
      }
      assert keys[..i] == keys;
      ids := Some(found);
    }

    method ReplayCommit(job: Job, actor: Actor, p: Payload) returns (r: Result<Imported, Error>)
      requires PayloadPrints(p) && SourcesUnique(tables.exercises)
      ensures r == Replay(Contents(), job, actor, p)
    {
      hide HashPayload, PayloadPrints, FindAll, FirstRevisions, CompletionAudits, SourcesUnique;
      if !SameRequest(job, actor, p) { return Failure(Conflict); }
      var rows := ValidateExerciseImportRows(p.rows);
      if job.sourceKeys.None? { return Failure(Conflict); }
      if |rows| != |p.rows| || !job.completed || job.startedAt.None? || job.completedAt.None?
         || job.totalRows != |p.rows| || job.validRows != |p.rows| || job.errorRows != 0 || job.importedRows != |p.rows|
         || job.sourceKeys.value != SourceKeys(rows) {
        return Failure(Conflict);
      }
      var ids := FindExercisesBySourceKeys(p.dataSourceId, job.sourceKeys.value);
      if ids.None? { return Failure(Conflict); }
      var revisionCount := FirstRevisions(tables.revisions, ids.value);
      var auditCount := CompletionAudits(tables.audits, job.id);
      if revisionCount != |ids.value| || auditCount != 1 { return Failure(Conflict); }
      r := Success(Imported(job.id, ids.value, job.importedRows, true));
    }

    method CommitImport(w: World, actor: Actor, p: Payload, previewHash: PreviewHash, key: Option<string>, now: int)
      returns (r: Result<Imported, Error>)
      requires PayloadPrints(p) && SourcesUnique(tables.exercises)
      modifies this, tables
      ensures ImportOutcome(Contents(), r) == Commit(old(Contents()), w, actor, p, previewHash, key, now)
    {
      hide HashPayload, PayloadPrints, Replay, InsertRows, AllRelate, RowsPrint, SourcesUnique;
      if !actor.isAdmin { return Failure(Forbidden); }
      if key.None? { return Failure(Unprocessable); }
      var expectedHash := HashPayload(p);
      if previewHash != expectedHash { return Failure(Conflict); }
      if actor.id !in w.admins { return Failure(Unauthorized); }
      if p.dataSourceId !in w.sources { return Failure(NotFound); }
      if key.value in jobs {
        r := ReplayCommit(jobs[key.value], actor, p);
        return;
      }
      PayloadRowsPrint(p);
      var rows := ValidateExerciseImportRows(p.rows);
      var related := PrepareImport(w, p.dataSourceId, rows);
      if |rows| != |p.rows| || !related { return Failure(Unprocessable); }
      var job := Job(nextJob, p.dataSourceId, actor.id, true, true, p.fileName, expectedHash,
                     |p.rows|, |rows|, 0, |rows|, Some(SourceKeys(rows)), Some(now), Some(now));
      InsertKeepsAudits(tables.Contents(), actor.id, p.dataSourceId, rows);
      var ids := InsertAll(w, actor, p.dataSourceId, rows);
      if ids.Failure? { return Failure(ids.error); }
      jobs := jobs[key.value := job];
      nextJob := nextJob + 1;
      tables.audits := tables.audits + [Audit(actor.id, ImportCompleted, job.id)];
      r := Success(Imported(job.id, ids.value, |rows|, false));
    }
  }

  lemma PayloadRowsPrint(p: Payload)
    requires PayloadPrints(p)
    ensures RowsPrint(Normalised(p.rows))
  {
    KeptPrint(p.rows, p.rows);
  }

  lemma AddAdvances(c: Catalogue, actorId: nat, lessonId: nat, topicId: Option<nat>, w: Written, source: Option<Source>)
    requires Prints(w.value)
    ensures var c' := AddExercise(c, actorId, lessonId, topicId, w, source);
      c'.nextExercise == c.nextExercise + 1 && c'.audits == c.audits
  {
  }

  lemma {:induction false} InsertKeepsAudits(c: Catalogue, actorId: nat, dataSourceId: nat, rows: seq<Row>)
    requires RowsPrint(rows)
    ensures InsertRows(c, actorId, dataSourceId, rows).audits == c.audits
    ensures InsertRows(c, actorId, dataSourceId, rows).nextExercise == c.nextExercise + |rows|
  {
    hide Prints, HashOf, AddExercise;
    if rows != [] {
      var front, last := rows[..|rows| - 1], rows[|rows| - 1];
      InsertKeepsAudits(c, actorId, dataSourceId, front);
      AddAdvances(InsertRows(c, actorId, dataSourceId, front), actorId, last.lessonId, last.topicId, last.written,
                  Some(Source(dataSourceId, last.sourceKey)));
    }
  }

  lemma FindAllFails(exercises: map<nat, Exercise>, dataSourceId: nat, keys: seq<string>, n: nat)
    requires n <= |keys| && FindAll(exercises, dataSourceId, keys[..n]).None?
    ensures FindAll(exercises, dataSourceId, keys).None?
    decreases |keys| - n
  {
    if n < |keys| {
      assert keys[..n + 1][..n] == keys[..n];
      FindAllFails(exercises, dataSourceId, keys, n + 1);
    } else {
      assert keys[..n] == keys;
    }
  }

  // ----- Structural validation, exactly -----

  lemma {:induction false} KeyCountMonotone(all: seq<Verdict>, n: nat, key: string)
    requires n <= |all|
    ensures KeyCount(all[..n], key) <= KeyCount(all, key)
    decreases |all| - n
  {
    if n == |all| {
      assert all[..n] == all;
    } else {
      KeptPrefix(all, n);
      KeyCountMonotone(all, n + 1, key);
    }
  }

  lemma {:induction false} KeptCounted(all: seq<Verdict>, verdicts: seq<Verdict>, key: string)
    requires key in SourceKeys(Kept(all, verdicts))
    ensures KeyCount(verdicts, key) >= 1
  {
    var front := verdicts[..|verdicts| - 1];
    var rows := Kept(all, front);
    var i :| 0 <= i < |Kept(all, verdicts)| && Kept(all, verdicts)[i].sourceKey == key;
    if i < |rows| {
      assert rows[i] == Kept(all, verdicts)[i] && SourceKeys(rows)[i] == key;
      KeptCounted(all, front, key);
    }
  }

  lemma {:induction false} KeptDistinct(all: seq<Verdict>, n: nat)
    requires n <= |all|
    ensures NoRepeats(SourceKeys(Kept(all, all[..n])))
  {
    if n > 0 {
      var rows := Kept(all, all[..n - 1]);
      KeptDistinct(all, n - 1);
      KeptPrefix(all, n - 1);
      if all[n - 1].Valid? && KeyCount(all, all[n - 1].row.sourceKey) == 1 {
        var key := all[n - 1].row.sourceKey;
        KeyCountMonotone(all, n, key);
        if key in SourceKeys(rows) { KeptCounted(all, all[..n - 1], key); }
        assert SourceKeys(rows + [all[n - 1].row]) == SourceKeys(rows) + [key];
        NoRepeatsAppend(SourceKeys(rows), key);
      }
    }
  }

  /** Rows that survive validation have distinct source keys. */
  lemma NormalisedKeysDistinct(verdicts: seq<Verdict>)
    ensures NoRepeats(SourceKeys(Normalised(verdicts)))
  {
    assert verdicts[..|verdicts|] == verdicts;
    KeptDistinct(verdicts, |verdicts|);
  }

  lemma {:induction false} KeptLength(all: seq<Verdict>, verdicts: seq<Verdict>)
    ensures |Kept(all, verdicts)| <= |verdicts|
    ensures |Kept(all, verdicts)| == |verdicts| ==> forall i | 0 <= i < |verdicts| ::
      verdicts[i] == Valid(Kept(all, verdicts)[i])
  {
    if verdicts != [] {
      var front := verdicts[..|verdicts| - 1];
      KeptLength(all, front);
      if |Kept(all, verdicts)| == |verdicts| {
        forall i | 0 <= i < |front| ensures verdicts[i] == Valid(Kept(all, verdicts)[i]) {
          assert front[i] == verdicts[i] && Kept(all, verdicts)[i] == Kept(all, front)[i];
        }
      }
    }
  }

  // ----- Insertion, exactly -----

  ghost predicate RowsFaithful(rows: seq<Row>) {
    forall i | 0 <= i < |rows| :: Faithful(rows[i].written)
  }

  ghost predicate PayloadFaithful(p: Payload) {
    forall i | 0 <= i < |p.rows| && p.rows[i].Valid? :: Faithful(p.rows[i].row.written)
  }

  lemma FaithfulRowsPrint(rows: seq<Row>)
    requires RowsFaithful(rows)
    ensures RowsPrint(rows)
  {
  }

  lemma {:induction false} KeptFaithful(all: seq<Verdict>, verdicts: seq<Verdict>)
    requires forall i | 0 <= i < |verdicts| && verdicts[i].Valid? :: Faithful(verdicts[i].row.written)
    ensures RowsFaithful(Kept(all, verdicts))
  {
    hide Faithful;
    if verdicts != [] { KeptFaithful(all, verdicts[..|verdicts| - 1]); }
  }

  /** The row became a draft at version 1 whose only revision says the same. */
  ghost predicate RowInserted(c: Catalogue, actorId: nat, dataSourceId: nat, row: Row, id: nat) {
    && Prints(row.written.value) && id in c.exercises && id in c.revisions
    && c.exercises[id] == Exercise(row.lessonId, row.topicId, row.written.stored, 1, Draft,
         Some(Source(dataSourceId, row.sourceKey)), actorId, actorId, None, None, None)
    && |c.revisions[id]| == 1
    && c.revisions[id][0] ==
         Revision(c.revisions[id][0].id, 1, row.written.stored, Some(HashOf(row.written.value)), actorId, [])
  }

  /** Existing rows are untouched and the new ids follow on, one per row. */
  ghost predicate InsertedAfter(c: Catalogue, actorId: nat, dataSourceId: nat, rows: seq<Row>, c': Catalogue) {
    && (forall id | id in c.exercises :: id in c'.exercises && c'.exercises[id] == c.exercises[id])
    && (forall id | id in c.revisions :: id in c'.revisions && c'.revisions[id] == c.revisions[id])
    && (forall id | id in c'.exercises :: id in c.exercises || c.nextExercise <= id < c.nextExercise + |rows|)
    && (forall i | 0 <= i < |rows| :: RowInserted(c', actorId, dataSourceId, rows[i], c.nextExercise + i))
  }

  lemma AddInserts(c: Catalogue, actorId: nat, dataSourceId: nat, row: Row)
    requires c.nextExercise !in c.exercises && c.exercises.Keys == c.revisions.Keys && Prints(row.written.value)
    ensures InsertedAfter(c, actorId, dataSourceId, [row],
      AddExercise(c, actorId, row.lessonId, row.topicId, row.written, Some(Source(dataSourceId, row.sourceKey))))
  {
    hide HashOf, Prints;
  }

  lemma InsertedTrans(c: Catalogue, actorId: nat, dataSourceId: nat, front: seq<Row>, m: Catalogue, row: Row,
      c': Catalogue)
    requires InsertedAfter(c, actorId, dataSourceId, front, m) && InsertedAfter(m, actorId, dataSourceId, [row], c')
    requires m.nextExercise == c.nextExercise + |front|
    ensures InsertedAfter(c, actorId, dataSourceId, front + [row], c')
  {
    hide HashOf, Prints;
    var rows := front + [row];
    forall i | 0 <= i < |rows| ensures RowInserted(c', actorId, dataSourceId, rows[i], c.nextExercise + i) {
      if i < |front| {
        assert RowInserted(m, actorId, dataSourceId, front[i], c.nextExercise + i);
      } else {
        assert RowInserted(c', actorId, dataSourceId, [row][0], m.nextExercise + 0);
      }
    }
  }

  lemma SoundKeys(c: Catalogue)
    requires Sound(c)
    ensures c.exercises.Keys == c.revisions.Keys
  {
  }

  lemma {:induction false} InsertExact(c: Catalogue, actorId: nat, dataSourceId: nat, rows: seq<Row>)
    requires Sound(c) && RowsFaithful(rows)
    ensures RowsPrint(rows)
    ensures var c' := InsertRows(c, actorId, dataSourceId, rows);
      Sound(c') && CatalogueEvolves(c, c') && InsertedAfter(c, actorId, dataSourceId, rows, c')
  {
    hide Sound, CatalogueEvolves, Faithful, Prints, AddExercise;
    FaithfulRowsPrint(rows);
    if rows == [] {
      EvolvesRefl(c);
    } else {
      var front, last := rows[..|rows| - 1], rows[|rows| - 1];
      InsertExact(c, actorId, dataSourceId, front);
      InsertKeepsAudits(c, actorId, dataSourceId, front);
      var m := InsertRows(c, actorId, dataSourceId, front);
      var source := Some(Source(dataSourceId, last.sourceKey));
      AddKeepsSound(m, actorId, last.lessonId, last.topicId, last.written, source);
      SoundKeys(m);
      AddInserts(m, actorId, dataSourceId, last);
      var c' := InsertRows(c, actorId, dataSourceId, rows);
      EvolvesTrans(c, m, c');
      hide InsertedAfter;
      InsertedTrans(c, actorId, dataSourceId, front, m, last, c');
      assert rows == front + [last];
    }
  }

  lemma InsertKeepsUnique(c: Catalogue, w: World, actorId: nat, dataSourceId: nat, rows: seq<Row>, c': Catalogue)
    requires SourcesUnique(c.exercises) && InsertedAfter(c, actorId, dataSourceId, rows, c')
    requires NoRepeats(SourceKeys(rows)) && AllRelate(c, w, dataSourceId, rows)
    ensures SourcesUnique(c'.exercises)
  {
    hide HashOf, Prints;
    forall a, b | a in c'.exercises && b in c'.exercises && SameSource(c'.exercises[a], c'.exercises[b])
      ensures a == b
    {
      if a !in c.exercises { NewSource(c, w, actorId, dataSourceId, rows, c', a); }
      if b !in c.exercises { NewSource(c, w, actorId, dataSourceId, rows, c', b); }
      if a !in c.exercises && b !in c.exercises {
        var keys := SourceKeys(rows);
        assert keys[a - c.nextExercise] == keys[b - c.nextExercise];
      }
    }
  }

  lemma NewSource(c: Catalogue, w: World, actorId: nat, dataSourceId: nat, rows: seq<Row>, c': Catalogue, id: nat)
    requires InsertedAfter(c, actorId, dataSourceId, rows, c') && AllRelate(c, w, dataSourceId, rows)
    requires id in c'.exercises && id !in c.exercises
    ensures c.nextExercise <= id < c.nextExercise + |rows|
    ensures c'.exercises[id].source == Some(Source(dataSourceId, rows[id - c.nextExercise].sourceKey))
    ensures forall other | other in c.exercises :: c.exercises[other].source != c'.exercises[id].source
  {
    hide HashOf, Prints;
    var i := id - c.nextExercise;
    assert RowInserted(c', actorId, dataSourceId, rows[i], c.nextExercise + i);
    assert Relates(c, w, dataSourceId, rows[i]);
  }

  // ----- Runs of authoring and imports -----

  datatype Step =
    | AuthorStep(step: ExerciseAuthoring.Step)
    | ImportStep(w: World, actor: Actor, p: Payload, previewHash: PreviewHash, key: Option<string>, now: int)

  ghost predicate StepEnabled(step: Step) {
    match step
    case AuthorStep(inner) => Enabled(inner)
    case ImportStep(_, _, p, _, _, _) => PayloadFaithful(p) && PayloadPrints(p)
  }

  ghost function Next(s: Store, step: Step): Store
    requires StepEnabled(step)
  {
    match step
    case AuthorStep(inner) => s.(catalogue := Perform(s.catalogue, inner).catalogue)
    case ImportStep(w, actor, p, previewHash, key, now) => Commit(s, w, actor, p, previewHash, key, now).store
  }

  ghost predicate Run(s: Store, steps: seq<Step>, s': Store)
    decreases |steps|
  {
    if steps == [] then s' == s
    else StepEnabled(steps[0]) && Run(Next(s, steps[0]), steps[1..], s')
  }

  ghost predicate JobsSound(jobs: map<string, Job>, nextJob: nat, audits: seq<Audit>) {
    && (forall key | key in jobs :: jobs[key].id < nextJob)
    && (forall id: nat | nextJob <= id :: CompletionAudits(audits, id) == 0)
  }

  ghost predicate StoreSound(s: Store) {
    Sound(s.catalogue) && SourcesUnique(s.catalogue.exercises) && JobsSound(s.jobs, s.nextJob, s.catalogue.audits)
  }

  lemma CompletionAppend(audits: seq<Audit>, a: Audit, jobId: nat)
    ensures CompletionAudits(audits + [a], jobId)
      == CompletionAudits(audits, jobId) + (if a.action.ImportCompleted? && a.targetId == jobId then 1 else 0)
  {
    assert (audits + [a])[..|audits|] == audits;
  }

  /** Authoring steps never write a completion audit. */
  lemma AuthoringAudits(c: Catalogue, step: ExerciseAuthoring.Step, jobId: nat)
    requires Enabled(step)
    ensures CompletionAudits(Perform(c, step).catalogue.audits, jobId) == CompletionAudits(c.audits, jobId)
  {
    hide HashOf, Prints, Faithful, CompletionAudits;
    var c' := Perform(c, step).catalogue;
    assert c'.audits == c.audits || exists a: Audit :: !a.action.ImportCompleted? && c'.audits == c.audits + [a];
    if c'.audits != c.audits {
      var a: Audit :| !a.action.ImportCompleted? && c'.audits == c.audits + [a];
      CompletionAppend(c.audits, a, jobId);
    }
  }

  lemma AuthoringSources(c: Catalogue, step: ExerciseAuthoring.Step, id: nat)
    requires Enabled(step) && id in Perform(c, step).catalogue.exercises && id !in c.exercises
    ensures Perform(c, step).catalogue.exercises[id].source.None?
  {
    hide HashOf, Prints, Faithful, SaysAlready, PublishGate;
  }

  lemma EvolvesKeepsSource(c: Catalogue, c': Catalogue, id: nat)
    requires CatalogueEvolves(c, c') && id in c.exercises && id in c.revisions
    ensures id in c'.exercises && c'.exercises[id].source == c.exercises[id].source
  {
    hide RevisionsGrow;
  }

  /** Authoring never gives an exercise a source or takes one away. */
  lemma AuthoringKeepsUnique(c: Catalogue, step: ExerciseAuthoring.Step)
    requires Sound(c) && Enabled(step) && SourcesUnique(c.exercises)
    ensures SourcesUnique(Perform(c, step).catalogue.exercises)
  {
    hide Perform, CatalogueEvolves, ExerciseSound;
    StepKeepsSound(c, step);
    var c' := Perform(c, step).catalogue;
    forall a, b | a in c'.exercises && b in c'.exercises && SameSource(c'.exercises[a], c'.exercises[b])
      ensures a == b
    {
      if a in c.exercises { EvolvesKeepsSource(c, c', a); } else { AuthoringSources(c, step, a); }
      if b in c.exercises { EvolvesKeepsSource(c, c', b); } else { AuthoringSources(c, step, b); }
      assert SameSource(c.exercises[a], c.exercises[b]);
    }
  }

  lemma AuthoringKeepsStore(s: Store, step: ExerciseAuthoring.Step)
    requires StoreSound(s) && Enabled(step)
    ensures var c' := Perform(s.catalogue, step).catalogue;
      StoreSound(s.(catalogue := c')) && CatalogueEvolves(s.catalogue, c')
  {
    hide Perform, Sound, SourcesUnique, CatalogueEvolves, CompletionAudits;
    StepKeepsSound(s.catalogue, step);
    AuthoringKeepsUnique(s.catalogue, step);
    forall id: nat | s.nextJob <= id ensures CompletionAudits(Perform(s.catalogue, step).catalogue.audits, id) == 0 {
      AuthoringAudits(s.catalogue, step, id);
    }
  }

  /** Everything a fresh commit does: either nothing, or every row becomes a draft with one
      revision, and one job and one audit record are written. */
  ghost predicate WholeImport(s: Store, actor: Actor, p: Payload, key: string, s': Store, r: Imported)
    requires PayloadPrints(p)
  {
    var rows := Normalised(p.rows);
    && |rows| == |p.rows| && (forall i | 0 <= i < |rows| :: p.rows[i] == Valid(rows[i]))
    && r.jobId == s.nextJob && r.exerciseIds == Range(s.catalogue.nextExercise, |rows|) && r.importedRows == |rows|
    && InsertedAfter(s.catalogue, actor.id, p.dataSourceId, rows, s'.catalogue)
    && s'.catalogue.audits == s.catalogue.audits + [Audit(actor.id, ImportCompleted, s.nextJob)]
    && key !in s.jobs && key in s'.jobs && s'.jobs == s.jobs[key := s'.jobs[key]] && s'.nextJob == s.nextJob + 1
    && s'.jobs[key].id == s.nextJob && SameRequest(s'.jobs[key], actor, p) && Complete(s'.jobs[key], p)
  }

  lemma ReplayIsIdempotent(s: Store, job: Job, actor: Actor, p: Payload)
    requires PayloadPrints(p)
    ensures Replay(s, job, actor, p).Success? ==> Replay(s, job, actor, p).value.idempotent
  {
  }

  lemma CommitAllOrNothing(s: Store, w: World, actor: Actor, p: Payload, previewHash: PreviewHash,
      key: Option<string>, now: int)
    requires StoreSound(s) && PayloadFaithful(p) && PayloadPrints(p)
    ensures var o := Commit(s, w, actor, p, previewHash, key, now);
      if o.result.Success? && !o.result.value.idempotent
      then key.Some? && WholeImport(s, actor, p, key.value, o.store, o.result.value)
      else o.store == s
  {
    hide PayloadFaithful, PayloadPrints, Replay, HashPayload, InsertedAfter, Prints, Faithful, RowsPrint;
    hide Sound, SourcesUnique, JobsSound, InsertRows;
    var o := Commit(s, w, actor, p, previewHash, key, now);
    if key.Some? && key.value in s.jobs { ReplayIsIdempotent(s, s.jobs[key.value], actor, p); }
    if o.result.Success? && !o.result.value.idempotent {
      var rows := Normalised(p.rows);
      PayloadRowsPrint(p);
      PayloadRowsFaithful(p);
      KeptLength(p.rows, p.rows);
      InsertExact(s.catalogue, actor.id, p.dataSourceId, rows);
      var filled := InsertRows(s.catalogue, actor.id, p.dataSourceId, rows);
      AuditedInserted(s.catalogue, actor.id, p.dataSourceId, rows, filled, o.store.catalogue);
    }
  }

  lemma PayloadRowsFaithful(p: Payload)
    requires PayloadFaithful(p)
    ensures RowsFaithful(Normalised(p.rows))
  {
    KeptFaithful(p.rows, p.rows);
  }

  lemma AuditedInserted(c: Catalogue, actorId: nat, dataSourceId: nat, rows: seq<Row>, c': Catalogue, c'': Catalogue)
    requires InsertedAfter(c, actorId, dataSourceId, rows, c')
    requires c''.exercises == c'.exercises && c''.revisions == c'.revisions
    ensures InsertedAfter(c, actorId, dataSourceId, rows, c'')
  {
    hide HashOf, Prints;
    forall i | 0 <= i < |rows| ensures RowInserted(c'', actorId, dataSourceId, rows[i], c.nextExercise + i) {
      assert RowInserted(c', actorId, dataSourceId, rows[i], c.nextExercise + i);
    }
  }

  lemma FreshCommit(s: Store, w: World, actor: Actor, p: Payload, previewHash: PreviewHash, key: Option<string>,
      now: int)
    requires PayloadPrints(p)
    requires Commit(s, w, actor, p, previewHash, key, now).store != s
    ensures var o := Commit(s, w, actor, p, previewHash, key, now);
      key.Some? && key.value !in s.jobs && o == Fresh(s, w, actor, p, key.value, now)
      && o.result.Success? && !o.result.value.idempotent
  {
    hide PayloadPrints, Replay, HashPayload, InsertRows, AllRelate, AddExercise;
  }

  lemma ImportKeepsStore(s: Store, w: World, actor: Actor, p: Payload, previewHash: PreviewHash, key: Option<string>,
      now: int)
    requires StoreSound(s) && PayloadFaithful(p) && PayloadPrints(p)
    ensures var s' := Commit(s, w, actor, p, previewHash, key, now).store;
      StoreSound(s') && CatalogueEvolves(s.catalogue, s'.catalogue)
  {
    hide PayloadFaithful, PayloadPrints, Replay, HashPayload, InsertedAfter, Prints, RowsPrint, Sound;
    hide SourcesUnique, InsertRows, AllRelate, Commit;
    var o := Commit(s, w, actor, p, previewHash, key, now);
    EvolvesRefl(s.catalogue);
    if o.store != s {
      FreshCommit(s, w, actor, p, previewHash, key, now);
      var rows := Normalised(p.rows);
      PayloadRowsPrint(p);
      PayloadRowsFaithful(p);
      InsertExact(s.catalogue, actor.id, p.dataSourceId, rows);
      InsertKeepsAudits(s.catalogue, actor.id, p.dataSourceId, rows);
      NormalisedKeysDistinct(p.rows);
      var filled := InsertRows(s.catalogue, actor.id, p.dataSourceId, rows);
      InsertKeepsUnique(s.catalogue, w, actor.id, p.dataSourceId, rows, filled);
      AuditedSound(filled, o.store.catalogue);
      AuditedJobs(s, o.store, Audit(actor.id, ImportCompleted, s.nextJob), key.value);
    }
  }

  lemma AuditedJobs(s: Store, s': Store, a: Audit, key: string)
    requires JobsSound(s.jobs, s.nextJob, s.catalogue.audits)
    requires a.targetId == s.nextJob && s'.nextJob == s.nextJob + 1 && s'.catalogue.audits == s.catalogue.audits + [a]
    requires key in s'.jobs && s'.jobs == s.jobs[key := s'.jobs[key]] && s'.jobs[key].id == s.nextJob
    ensures JobsSound(s'.jobs, s'.nextJob, s'.catalogue.audits)
  {
    hide CompletionAudits;
    forall id: nat | s'.nextJob <= id ensures CompletionAudits(s'.catalogue.audits, id) == 0 {
      CompletionAppend(s.catalogue.audits, a, id);
    }
  }

  lemma StepKeepsStore(s: Store, step: Step)
    requires StoreSound(s) && StepEnabled(step)
    ensures StoreSound(Next(s, step)) && CatalogueEvolves(s.catalogue, Next(s, step).catalogue)
  {
    hide StoreSound, CatalogueEvolves, Commit, Perform, PayloadFaithful, PayloadPrints, Enabled;
    match step
    case AuthorStep(inner) => AuthoringKeepsStore(s, inner);
    case ImportStep(w, actor, p, previewHash, key, now) => ImportKeepsStore(s, w, actor, p, previewHash, key, now);
  }

  /** In every run of create, import, revise, review, publish and archive the invariant holds at
      the end, versions never decrease, revisions and reviews are only appended and archived
      exercises never change. */
  lemma {:induction false} RunKeepsStore(s: Store, steps: seq<Step>, s': Store)
    requires StoreSound(s) && Run(s, steps, s')
    ensures StoreSound(s') && CatalogueEvolves(s.catalogue, s'.catalogue)
    decreases |steps|
  {
    hide StoreSound, CatalogueEvolves, Next, StepEnabled;
    if steps == [] {
      EvolvesRefl(s.catalogue);
    } else {
      StepKeepsStore(s, steps[0]);
      RunKeepsStore(Next(s, steps[0]), steps[1..], s');
      EvolvesTrans(s.catalogue, Next(s, steps[0]).catalogue, s'.catalogue);
    }
  }

  // ----- Published content over whole runs -----

  /** The step is a publish of the exercise that took effect. */
  ghost predicate AppliesPublish(s: Store, step: Step, id: nat)
    requires StepEnabled(step)
  {
    && step.AuthorStep? && step.step.PublishStep? && step.step.id == id
    && var r := Perform(s.catalogue, step.step).result; r.Success? && !r.value.idempotent
  }

  ghost predicate AppliesArchive(s: Store, step: Step, id: nat)
    requires StepEnabled(step)
  {
    && step.AuthorStep? && step.step.ArchiveStep? && step.step.id == id
    && var r := Perform(s.catalogue, step.step).result; r.Success? && !r.value.idempotent
  }

  ghost predicate PublishedIn(s: Store, steps: seq<Step>, id: nat)
    decreases |steps|
  {
    steps != [] && StepEnabled(steps[0])
    && (AppliesPublish(s, steps[0], id) || PublishedIn(Next(s, steps[0]), steps[1..], id))
  }

  ghost predicate ArchivedIn(s: Store, steps: seq<Step>, id: nat)
    decreases |steps|
  {
    steps != [] && StepEnabled(steps[0])
    && (AppliesArchive(s, steps[0], id) || ArchivedIn(Next(s, steps[0]), steps[1..], id))
  }

  predicate SameContent(e: Exercise, e': Exercise) {
    e'.live == e.live && e'.version == e.version
  }

  lemma ImportLeavesExisting(s: Store, step: Step, id: nat)
    requires StoreSound(s) && StepEnabled(step) && step.ImportStep? && id in s.catalogue.exercises
    ensures id in Next(s, step).catalogue.exercises
    ensures Next(s, step).catalogue.exercises[id] == s.catalogue.exercises[id]
  {
    hide StoreSound, Commit, PayloadFaithful, PayloadPrints, RowInserted, SameRequest, Complete;
    CommitAllOrNothing(s, step.w, step.actor, step.p, step.previewHash, step.key, step.now);
  }

  lemma StepKeepsPublished(s: Store, step: Step, id: nat)
    requires StoreSound(s) && StepEnabled(step)
    requires id in s.catalogue.exercises && s.catalogue.exercises[id].status.Published?
    ensures var c, c' := s.catalogue, Next(s, step).catalogue;
      && id in c'.exercises
      && (SameContent(c.exercises[id], c'.exercises[id]) || AppliesPublish(s, step, id))
      && (c'.exercises[id].status.Published? || (c'.exercises[id].status.Archived? && AppliesArchive(s, step, id)))
  {
    hide SourcesUnique, JobsSound, Sound, Perform, Commit, Enabled, PayloadFaithful, PayloadPrints, CatalogueEvolves;
    match step
    case ImportStep(_, _, _, _, _, _) => ImportLeavesExisting(s, step, id);
    case AuthorStep(inner) =>
      PublishedContentIsStable(s.catalogue, inner, id);
      AuditTrail(s.catalogue, inner);
      StepKeepsSound(s.catalogue, inner);
      StaysOutOfDraft(s.catalogue, Perform(s.catalogue, inner).catalogue, id);
  }

  lemma StaysOutOfDraft(c: Catalogue, c': Catalogue, id: nat)
    requires Sound(c) && CatalogueEvolves(c, c') && id in c.exercises && c.exercises[id].status.Published?
    ensures id in c'.exercises && !c'.exercises[id].status.Draft?
  {
    hide RevisionsGrow, ExerciseSound;
    assert id in c.revisions;
  }

  lemma ArchivedStays(c: Catalogue, c': Catalogue, id: nat)
    requires Sound(c) && CatalogueEvolves(c, c') && id in c.exercises && c.exercises[id].status.Archived?
    ensures id in c'.exercises && c'.exercises[id] == c.exercises[id]
  {
    hide RevisionsGrow, ExerciseSound;
    assert id in c.revisions;
  }

  /** Over every run of authoring and imports: what a published exercise shows differs at the end
      only if the run holds a publish of it that took effect, and it is no longer published only if
      the run archived it. */
  lemma {:induction false} PublishedContentChangesOnlyByPublish(s: Store, steps: seq<Step>, s': Store, id: nat)
    requires StoreSound(s) && Run(s, steps, s')
    requires id in s.catalogue.exercises && s.catalogue.exercises[id].status.Published?
    ensures id in s'.catalogue.exercises
    ensures SameContent(s.catalogue.exercises[id], s'.catalogue.exercises[id]) || PublishedIn(s, steps, id)
    ensures s'.catalogue.exercises[id].status.Published? || ArchivedIn(s, steps, id)
    decreases |steps|
  {
    hide SourcesUnique, JobsSound, Sound, Next, StepEnabled, CatalogueEvolves, AppliesPublish, AppliesArchive;
    if steps != [] {
      var next := Next(s, steps[0]);
      StepKeepsPublished(s, steps[0], id);
      StepKeepsStore(s, steps[0]);
      if next.catalogue.exercises[id].status.Published? {
        PublishedContentChangesOnlyByPublish(next, steps[1..], s', id);
      } else {
        RunKeepsStore(next, steps[1..], s');
        ArchivedStays(next.catalogue, s'.catalogue, id);
      }
    }
  }

  lemma EmptyStoreSound(s: Store)
    requires s.catalogue.exercises == map[] && s.catalogue.revisions == map[] && s.catalogue.audits == []
    requires s.jobs == map[]
    ensures StoreSound(s)
  {
  }

  // ----- Replay -----

  /** The traces a committed import leaves. */
  ghost predicate Recorded(s: Store, key: string, actor: Actor, p: Payload, ids: seq<nat>)
    requires PayloadPrints(p)
  {
    var keys := SourceKeys(Normalised(p.rows));
    && key in s.jobs && SameRequest(s.jobs[key], actor, p) && Complete(s.jobs[key], p)
    && CompletionAudits(s.catalogue.audits, s.jobs[key].id) == 1
    && |ids| == |keys| && forall i | 0 <= i < |ids| ::
         HasSource(s.catalogue.exercises, Source(p.dataSourceId, keys[i]), ids[i])
  }

  lemma WholeImportRecorded(s: Store, actor: Actor, p: Payload, key: string, s': Store, r: Imported)
    requires PayloadPrints(p) && StoreSound(s) && WholeImport(s, actor, p, key, s', r)
    ensures Recorded(s', key, actor, p, r.exerciseIds)
  {
    hide PayloadPrints, SameRequest, Complete, Sound, SourcesUnique, CompletionAudits, HashOf, Prints;
    var rows := Normalised(p.rows);
    CompletionAppend(s.catalogue.audits, Audit(actor.id, ImportCompleted, s.nextJob), s.nextJob);
    forall i | 0 <= i < |rows|
      ensures HasSource(s'.catalogue.exercises, Source(p.dataSourceId, SourceKeys(rows)[i]), r.exerciseIds[i])
    {
      assert RowInserted(s'.catalogue, actor.id, p.dataSourceId, rows[i], s.catalogue.nextExercise + i);
    }
  }

  /** Jobs are never changed, and no later audit names this job. */
  lemma StepKeepsJob(s: Store, step: Step, key: string)
    requires StoreSound(s) && StepEnabled(step) && key in s.jobs
    ensures var s' := Next(s, step);
      && key in s'.jobs && s'.jobs[key] == s.jobs[key]
      && CompletionAudits(s'.catalogue.audits, s.jobs[key].id) == CompletionAudits(s.catalogue.audits, s.jobs[key].id)
  {
    hide Sound, SourcesUnique, Perform, CompletionAudits, Commit, PayloadFaithful, PayloadPrints, WholeImport;
    match step
    case AuthorStep(inner) => AuthoringAudits(s.catalogue, inner, s.jobs[key].id);
    case ImportStep(w, actor, p, previewHash, k, now) =>
      CommitAllOrNothing(s, w, actor, p, previewHash, k, now);
      var o := Commit(s, w, actor, p, previewHash, k, now);
      if o.store != s {
        WholeImportAudit(s, actor, p, k.value, o.store, o.result.value);
        CompletionAppend(s.catalogue.audits, Audit(actor.id, ImportCompleted, s.nextJob), s.jobs[key].id);
      }
  }

  lemma WholeImportAudit(s: Store, actor: Actor, p: Payload, key: string, s': Store, r: Imported)
    requires PayloadPrints(p) && WholeImport(s, actor, p, key, s', r)
    ensures s'.catalogue.audits == s.catalogue.audits + [Audit(actor.id, ImportCompleted, s.nextJob)]
    ensures key !in s.jobs && key in s'.jobs && s'.jobs == s.jobs[key := s'.jobs[key]]
  {
  }

  lemma StepKeepsRecord(s: Store, step: Step, key: string, actor: Actor, p: Payload, ids: seq<nat>)
    requires StoreSound(s) && StepEnabled(step) && PayloadPrints(p) && Recorded(s, key, actor, p, ids)
    ensures Recorded(Next(s, step), key, actor, p, ids)
  {
    hide Next, StepEnabled, PayloadPrints, SameRequest, Complete, CatalogueEvolves, SourcesUnique, JobsSound;
    hide CompletionAudits;
    StepKeepsStore(s, step);
    StepKeepsJob(s, step, key);
    var keys := SourceKeys(Normalised(p.rows));
    forall i | 0 <= i < |ids|
      ensures HasSource(Next(s, step).catalogue.exercises, Source(p.dataSourceId, keys[i]), ids[i])
    {
      assert HasSource(s.catalogue.exercises, Source(p.dataSourceId, keys[i]), ids[i]);
      SoundKeys(s.catalogue);
      EvolvesKeepsSource(s.catalogue, Next(s, step).catalogue, ids[i]);
    }
  }

  lemma {:induction false} RunKeepsRecord(s: Store, steps: seq<Step>, s': Store, key: string, actor: Actor,
      p: Payload, ids: seq<nat>)
    requires StoreSound(s) && Run(s, steps, s') && PayloadPrints(p) && Recorded(s, key, actor, p, ids)
    ensures StoreSound(s') && Recorded(s', key, actor, p, ids)
    decreases |steps|
  {
    hide StoreSound, Recorded, Next, StepEnabled, CatalogueEvolves, PayloadPrints;
    if steps != [] {
      StepKeepsStore(s, steps[0]);
      StepKeepsRecord(s, steps[0], key, actor, p, ids);
      RunKeepsRecord(Next(s, steps[0]), steps[1..], s', key, actor, p, ids);
    }
  }

  lemma {:induction false} FindAllExact(exercises: map<nat, Exercise>, dataSourceId: nat, keys: seq<string>,
      ids: seq<nat>)
    requires SourcesUnique(exercises) && |ids| == |keys|
    requires forall i | 0 <= i < |ids| :: HasSource(exercises, Source(dataSourceId, keys[i]), ids[i])
    ensures FindAll(exercises, dataSourceId, keys) == Some(ids)
  {
    if keys != [] {
      var last := |keys| - 1;
      FindAllExact(exercises, dataSourceId, keys[..last], ids[..last]);
      assert HasSource(exercises, Source(dataSourceId, keys[last]), ids[last]);
      var found := Find(exercises, Source(dataSourceId, keys[last])).value;
      assert SameSource(exercises[found], exercises[ids[last]]);
      assert ids == ids[..last] + [ids[last]];
    }
  }

  lemma {:induction false} OneNumberOne(revisions: seq<Revision>, n: nat)
    requires 1 <= n <= |revisions| && forall i | 0 <= i < |revisions| :: revisions[i].number == i + 1
    ensures NumberOne(revisions[..n]) == 1
  {
    assert revisions[..n][..n - 1] == revisions[..n - 1];
    if n > 1 { OneNumberOne(revisions, n - 1); }
  }

  lemma {:induction false} FirstRevisionsExact(c: Catalogue, ids: seq<nat>)
    requires Sound(c) && NoRepeats(ids) && forall i | 0 <= i < |ids| :: ids[i] in c.exercises
    ensures FirstRevisions(c.revisions, ids) == |ids|
  {
    if ids != [] {
      var front, last := ids[..|ids| - 1], ids[|ids| - 1];
      FirstRevisionsExact(c, front);
      assert last !in front;
      NumberOneOfSound(c, last);
    }
  }

  lemma NumberOneOfSound(c: Catalogue, id: nat)
    requires Sound(c) && id in c.exercises
    ensures NumberOne(RevisionsOf(c.revisions, id)) == 1
  {
    hide Printable, RowSound, HashOf;
    assert ExerciseSound(c, id);
    var revisions := c.revisions[id];
    forall i | 0 <= i < |revisions| ensures revisions[i].number == i + 1 { assert RevisionSound(revisions[i], i + 1); }
    OneNumberOne(revisions, |revisions|);
    assert revisions[..|revisions|] == revisions;
  }

  lemma RecordedReplays(s: Store, key: string, actor: Actor, p: Payload, ids: seq<nat>)
    requires StoreSound(s) && PayloadPrints(p) && Recorded(s, key, actor, p, ids)
    ensures Replay(s, s.jobs[key], actor, p) == Success(Imported(s.jobs[key].id, ids, |p.rows|, true))
  {
    hide PayloadPrints, SameRequest, Sound, JobsSound, SourcesUnique, CompletionAudits, FindAll, FirstRevisions;
    var keys := SourceKeys(Normalised(p.rows));
    FindAllExact(s.catalogue.exercises, p.dataSourceId, keys, ids);
    NormalisedKeysDistinct(p.rows);
    forall i, j | 0 <= i < j < |ids| ensures ids[i] != ids[j] {
      assert HasSource(s.catalogue.exercises, Source(p.dataSourceId, keys[i]), ids[i]);
      assert HasSource(s.catalogue.exercises, Source(p.dataSourceId, keys[j]), ids[j]);
    }
    FirstRevisionsExact(s.catalogue, ids);
  }

  /** After a committed import and any further steps, the same actor repeating the same payload
      and key gets the same job and the same exercise ids in the same order, and nothing changes. */
  lemma ReplayReturnsSame(
      s: Store, w: World, actor: Actor, p: Payload, previewHash: PreviewHash, key: Option<string>, now: int,
      steps: seq<Step>, s': Store, w': World, later: int)
    requires StoreSound(s) && PayloadFaithful(p) && PayloadPrints(p)
    requires var first := Commit(s, w, actor, p, previewHash, key, now);
      first.result.Success? && !first.result.value.idempotent && Run(first.store, steps, s')
    requires actor.id in w'.admins && p.dataSourceId in w'.sources
    ensures Commit(s', w', actor, p, previewHash, key, later)
      == ImportOutcome(s', Success(Commit(s, w, actor, p, previewHash, key, now).result.value.(idempotent := true)))
  {
    hide PayloadFaithful, PayloadPrints, StoreSound, Recorded, WholeImport, Run, CatalogueEvolves, Replay;
    hide Fresh, HashPayload;
    var first := Commit(s, w, actor, p, previewHash, key, now);
    CommitAllOrNothing(s, w, actor, p, previewHash, key, now);
    ImportKeepsStore(s, w, actor, p, previewHash, key, now);
    WholeImportRecorded(s, actor, p, key.value, first.store, first.result.value);
    RunKeepsRecord(first.store, steps, s', key.value, actor, p, first.result.value.exerciseIds);
    WholeImportResult(s, actor, p, key.value, first.store, first.result.value);
    RunKeepsJobs(first.store, steps, s', key.value);
    RecordedReplays(s', key.value, actor, p, first.result.value.exerciseIds);
  }

  lemma WholeImportResult(s: Store, actor: Actor, p: Payload, key: string, s': Store, r: Imported)
    requires PayloadPrints(p) && WholeImport(s, actor, p, key, s', r)
    ensures key in s'.jobs && s'.jobs[key].id == r.jobId && r.importedRows == |p.rows|
  {
  }

  lemma {:induction false} RunKeepsJobs(s: Store, steps: seq<Step>, s': Store, key: string)
    requires StoreSound(s) && Run(s, steps, s') && key in s.jobs
    ensures key in s'.jobs && s'.jobs[key] == s.jobs[key]
    decreases |steps|
  {
    hide StoreSound, Next, StepEnabled, CatalogueEvolves;
    if steps != [] {
      StepKeepsStore(s, steps[0]);
      StepKeepsJob(s, steps[0], key);
      RunKeepsJobs(Next(s, steps[0]), steps[1..], s', key);
    }
  }
}
