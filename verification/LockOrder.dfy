/** The explicit row locks of concurrent CMS transactions. */
module LockOrder {
  import opened Outcomes

  datatype LockClass = User | DataSource | Lesson | Topic | LessonExercise | Media

  datatype Mode = Share | Update

  /** SELECT ... FOR SHARE / FOR UPDATE on one row. */
  datatype Request = Request(lockClass: LockClass, id: nat, mode: Mode)

  function Rank(c: LockClass): nat {
    match c
    case User => 0
    case DataSource => 1
    case Lesson => 2
    case Topic => 3
    case LessonExercise => 4
    case Media => 5
  }

  /** The global order: by class, then by row id. */
  predicate Before(a: Request, b: Request) {
    Rank(a.lockClass) < Rank(b.lockClass) || (a.lockClass == b.lockClass && a.id < b.id)
  }

  predicate SameRow(a: Request, b: Request) { a.lockClass == b.lockClass && a.id == b.id }

  predicate Incompatible(a: Request, b: Request) {
    SameRow(a, b) && (a.mode.Update? || b.mode.Update?)
  }

  ghost predicate Ascending(program: seq<Request>) {
    forall i, j | 0 <= i < j < |program| :: Before(program[i], program[j])
  }

  // ----- What each operation locks, in the order its code locks -----

  datatype Operation =
    | LessonStep(lesson: nat)
    | TopicCreate(lesson: nat)
    | TopicStep(topic: nat, lesson: nat)
    | ExerciseCreate(actor: nat, lesson: nat, parent: Option<nat>)
    | ExerciseStep(actor: nat, lesson: nat, parent: Option<nat>, exercise: nat)
    | ExercisePublish(actor: nat, lesson: nat, parent: Option<nat>, exercise: nat, audio: Option<nat>)
    | ImportCommit(actor: nat, dataSource: nat, parents: seq<ImportParent>)
    | ImportReplay(actor: nat, dataSource: nat)
    | MediaLifecycle(actor: nat, media: nat)

  /** The parents one import row names. */
  datatype ImportParent = ImportParent(lesson: nat, topic: Option<nat>)

  function LockActor(actor: nat): seq<Request> { [Request(User, actor, Share)] }

  function LockParents(lesson: nat, topic: Option<nat>): seq<Request> {
    [Request(Lesson, lesson, Update)]
    + (if topic.None? then [] else [Request(Topic, topic.value, Update)])
  }

  function Locks(op: Operation): seq<Request> {
    match op
    case LessonStep(lesson) => [Request(Lesson, lesson, Update)]
    case TopicCreate(lesson) => [Request(Lesson, lesson, Update)]
    case TopicStep(topic, lesson) => [Request(Lesson, lesson, Update), Request(Topic, topic, Update)]
    case ExerciseCreate(actor, lesson, topic) => LockActor(actor) + LockParents(lesson, topic)
    case ExerciseStep(actor, lesson, topic, exercise) =>
      LockActor(actor) + LockParents(lesson, topic) + [Request(LessonExercise, exercise, Update)]
    case ExercisePublish(actor, lesson, topic, exercise, media) =>
      LockActor(actor) + LockParents(lesson, topic) + [Request(LessonExercise, exercise, Update)]
      + (if media.None? then [] else [Request(Media, media.value, Share)])
    case ImportCommit(actor, dataSource, parents) =>
      LockActor(actor) + [Request(DataSource, dataSource, Update)] + LockImportParents(parents)
    case ImportReplay(actor, dataSource) => LockActor(actor) + [Request(DataSource, dataSource, Update)]
    case MediaLifecycle(actor, media) => LockActor(actor) + [Request(Media, media, Update)]
  }

  /** `[...new Set(ids)].sort((l, r) => l - r)`. */
  function SortDistinct(ids: seq<nat>): seq<nat> {
    if ids == [] then [] else InsertDistinct(ids[0], SortDistinct(ids[1..]))
  }

  function InsertDistinct(x: nat, sorted: seq<nat>): seq<nat> {
    if sorted == [] || x < sorted[0] then [x] + sorted
    else if x == sorted[0] then sorted
    else [sorted[0]] + InsertDistinct(x, sorted[1..])
  }

  function LessonIds(parents: seq<ImportParent>): seq<nat> {
    if parents == [] then [] else [parents[0].lesson] + LessonIds(parents[1..])
  }

  function TopicIds(parents: seq<ImportParent>): seq<nat> {
    if parents == [] then []
    else (if parents[0].topic.None? then [] else [parents[0].topic.value]) + TopicIds(parents[1..])
  }

  function UpdateAll(c: LockClass, ids: seq<nat>): (requests: seq<Request>)
    ensures |requests| == |ids|
    ensures forall i | 0 <= i < |ids| :: requests[i] == Request(c, ids[i], Update)
  {
    seq(|ids|, i requires 0 <= i < |ids| => Request(c, ids[i], Update))
  }

  function LockImportParents(parents: seq<ImportParent>): seq<Request> {
    UpdateAll(Lesson, SortDistinct(LessonIds(parents))) + UpdateAll(Topic, SortDistinct(TopicIds(parents)))
  }

  ghost predicate StrictlySorted(ids: seq<nat>) {
    forall i, j | 0 <= i < j < |ids| :: ids[i] < ids[j]
  }

  lemma {:induction false} InsertDistinctSorted(x: nat, sorted: seq<nat>)
    requires StrictlySorted(sorted)
    ensures StrictlySorted(InsertDistinct(x, sorted))
    ensures forall y :: y in InsertDistinct(x, sorted) <==> y == x || y in sorted
  {
    if sorted != [] && x > sorted[0] {
      InsertDistinctSorted(x, sorted[1..]);
      var rest := InsertDistinct(x, sorted[1..]);
      forall i | 0 <= i < |rest| ensures sorted[0] < rest[i] { assert rest[i] in rest; }
      assert sorted == [sorted[0]] + sorted[1..];
    }
  }

  /** The ids are locked in ascending order, each once, none left out. */
  lemma {:induction false} SortDistinctExact(ids: seq<nat>)
    ensures StrictlySorted(SortDistinct(ids))
    ensures forall y :: y in SortDistinct(ids) <==> y in ids
  {
    if ids != [] {
      SortDistinctExact(ids[1..]);
      InsertDistinctSorted(ids[0], SortDistinct(ids[1..]));
      assert ids == [ids[0]] + ids[1..];
    }
  }

  lemma AscendingConcat(a: seq<Request>, b: seq<Request>, rank: nat)
    requires Ascending(a) && Ascending(b)
    requires forall i | 0 <= i < |a| :: Rank(a[i].lockClass) <= rank
    requires forall i | 0 <= i < |b| :: rank < Rank(b[i].lockClass)
    ensures Ascending(a + b)
  {
  }

  lemma ParentsAscend(lesson: nat, topic: Option<nat>)
    ensures Ascending(LockParents(lesson, topic))
    ensures forall r | r in LockParents(lesson, topic) :: 0 < Rank(r.lockClass) <= 3
  {
  }

  lemma ExerciseLocksAscend(actor: nat, lesson: nat, topic: Option<nat>, exercise: nat)
    ensures Ascending(LockActor(actor) + LockParents(lesson, topic) + [Request(LessonExercise, exercise, Update)])
  {
    hide LockParents;
    ParentsAscend(lesson, topic);
    AscendingConcat(LockActor(actor), LockParents(lesson, topic), 0);
    AscendingConcat(LockActor(actor) + LockParents(lesson, topic), [Request(LessonExercise, exercise, Update)], 3);
  }

  lemma ImportLocksAscend(actor: nat, dataSource: nat, parents: seq<ImportParent>)
    ensures Ascending(LockActor(actor) + [Request(DataSource, dataSource, Update)] + LockImportParents(parents))
  {
    hide SortDistinct;
    var lessons, topics := SortDistinct(LessonIds(parents)), SortDistinct(TopicIds(parents));
    SortDistinctExact(LessonIds(parents));
    SortDistinctExact(TopicIds(parents));
    AscendingConcat(UpdateAll(Lesson, lessons), UpdateAll(Topic, topics), 2);
    AscendingConcat(LockActor(actor) + [Request(DataSource, dataSource, Update)], LockImportParents(parents), 1);
  }

  /** Every CMS operation takes its locks in the global order, so it never asks twice for a row
      and never upgrades a lock. */
  lemma LocksAscend(op: Operation)
    ensures Ascending(Locks(op))
  {
    hide LockImportParents, LockParents;
    match op
    case ExerciseCreate(actor, lesson, topic) =>
      ParentsAscend(lesson, topic);
      AscendingConcat(LockActor(actor), LockParents(lesson, topic), 0);
    case ExerciseStep(actor, lesson, topic, exercise) => ExerciseLocksAscend(actor, lesson, topic, exercise);
    case ExercisePublish(actor, lesson, topic, exercise, media) =>
      ExerciseLocksAscend(actor, lesson, topic, exercise);
      ParentsAscend(lesson, topic);
      var before := LockActor(actor) + LockParents(lesson, topic) + [Request(LessonExercise, exercise, Update)];
      AscendingConcat(before, if media.None? then [] else [Request(Media, media.value, Share)], 4);
    case ImportCommit(actor, dataSource, parents) => ImportLocksAscend(actor, dataSource, parents);
    case _ =>
  }

  lemma {:induction false} LessonIdsExact(parents: seq<ImportParent>, id: nat)
    ensures id in LessonIds(parents) <==> exists i :: 0 <= i < |parents| && parents[i].lesson == id
    ensures id in TopicIds(parents) <==> exists i :: 0 <= i < |parents| && parents[i].topic == Some(id)
  {
    if parents != [] {
      LessonIdsExact(parents[1..], id);
      if i :| 0 <= i < |parents[1..]| && parents[1..][i].lesson == id { assert parents[i + 1].lesson == id; }
      if i :| 0 <= i < |parents[1..]| && parents[1..][i].topic == Some(id) { assert parents[i + 1].topic == Some(id); }
      if i :| 0 <= i < |parents| && parents[i].lesson == id && i > 0 { assert parents[1..][i - 1].lesson == id; }
      if i :| 0 <= i < |parents| && parents[i].topic == Some(id) && i > 0 {
        assert parents[1..][i - 1].topic == Some(id);
      }
    }
  }

  /** The operation works on this row, in this mode. */
  ghost predicate Touches(op: Operation, r: Request) {
    match r.lockClass
    case User => r.mode == Share && !op.LessonStep? && !op.TopicCreate? && !op.TopicStep? && op.actor == r.id
    case DataSource => r.mode == Update && (op.ImportCommit? || op.ImportReplay?) && op.dataSource == r.id
    case Lesson =>
      r.mode == Update
      && if op.ImportCommit? then exists i :: 0 <= i < |op.parents| && op.parents[i].lesson == r.id
         else !op.ImportReplay? && !op.MediaLifecycle? && op.lesson == r.id
    case Topic =>
      r.mode == Update
      && if op.ImportCommit? then exists i :: 0 <= i < |op.parents| && op.parents[i].topic == Some(r.id)
         else if op.TopicStep? then op.topic == r.id
         else (op.ExerciseCreate? || op.ExerciseStep? || op.ExercisePublish?) && op.parent == Some(r.id)
    case LessonExercise => r.mode == Update && (op.ExerciseStep? || op.ExercisePublish?) && op.exercise == r.id
    case Media =>
      || (r.mode == Share && op.ExercisePublish? && op.audio == Some(r.id))
      || (r.mode == Update && op.MediaLifecycle? && op.media == r.id)
  }

  /** Every operation locks exactly the rows it works on: its actor and audio shared, all else for
      update. */
  lemma LocksExact(op: Operation, r: Request)
    ensures r in Locks(op) <==> Touches(op, r)
  {
    hide LockImportParents;
    if op.ImportCommit? { ParentLocksExact(op.parents, r); }
  }

  lemma ParentLocksExact(parents: seq<ImportParent>, r: Request)
    ensures r in LockImportParents(parents) <==>
      && r.mode == Update
      && ((r.lockClass == Lesson && exists i :: 0 <= i < |parents| && parents[i].lesson == r.id)
          || (r.lockClass == Topic && exists i :: 0 <= i < |parents| && parents[i].topic == Some(r.id)))
  {
    SortDistinctExact(LessonIds(parents));
    SortDistinctExact(TopicIds(parents));
    LessonIdsExact(parents, r.id);
    hide SortDistinct, LessonIds, TopicIds;
    UpdateAllExact(Lesson, SortDistinct(LessonIds(parents)), r);
    UpdateAllExact(Topic, SortDistinct(TopicIds(parents)), r);
    hide UpdateAll;
  }

  lemma UpdateAllExact(c: LockClass, ids: seq<nat>, r: Request)
    ensures r in UpdateAll(c, ids) <==> r.lockClass == c && r.mode == Update && r.id in ids
  {
    if r.lockClass == c && r.mode == Update && r.id in ids {
      var i :| 0 <= i < |ids| && ids[i] == r.id;
      assert UpdateAll(c, ids)[i] == r;
    }
  }

  // ----- Concurrent transactions -----

  /** A transaction has taken the first `taken` locks of its program; ending releases them all. */
  datatype Tx = Tx(program: seq<Request>, taken: nat, ended: bool)

  type System = seq<Tx>

  datatype Step = Begin(op: Operation) | Acquire(tx: nat) | Commit(tx: nat) | Abort(tx: nat)

  predicate Waiting(t: Tx) { !t.ended && t.taken < |t.program| }

  predicate Holds(t: Tx, r: Request) {
    !t.ended && t.taken <= |t.program| && exists k | 0 <= k < t.taken :: Incompatible(t.program[k], r)
  }

  /** Transaction i waits for a lock that transaction j holds. */
  predicate WaitsFor(s: System, i: nat, j: nat) {
    i < |s| && j < |s| && i != j && Waiting(s[i]) && Holds(s[j], s[i].program[s[i].taken])
  }

  predicate Enabled(s: System, step: Step) {
    match step
    case Begin(_) => true
    case Acquire(i) => i < |s| && Waiting(s[i]) && forall j | 0 <= j < |s| :: !WaitsFor(s, i, j)
    case Commit(i) => i < |s| && !s[i].ended && s[i].taken == |s[i].program|
    case Abort(i) => i < |s| && !s[i].ended
  }

  function Next(s: System, step: Step): System
    requires Enabled(s, step)
  {
    match step
    case Begin(op) => s + [Tx(Locks(op), 0, false)]
    case Acquire(i) => s[i := s[i].(taken := s[i].taken + 1)]
    case Commit(i) => s[i := s[i].(ended := true)]
    case Abort(i) => s[i := s[i].(ended := true)]
  }

  ghost predicate Run(s: System, steps: seq<Step>, s': System)
    decreases |steps|
  {
    if steps == [] then s' == s
    else Enabled(s, steps[0]) && Run(Next(s, steps[0]), steps[1..], s')
  }

  ghost predicate Reachable(s: System) {
    exists steps :: Run([], steps, s)
  }

  /** No two live transactions hold incompatible locks. */
  ghost predicate Exclusive(s: System) {
    forall i, j, k | 0 <= i < |s| && 0 <= j < |s| && i != j && !s[i].ended && 0 <= k < s[i].taken <= |s[i].program| ::
      !Holds(s[j], s[i].program[k])
  }

  ghost predicate Invariant(s: System) {
    && (forall i | 0 <= i < |s| :: Ascending(s[i].program) && s[i].taken <= |s[i].program|)
    && Exclusive(s)
  }

  lemma AcquireKeepsExclusive(s: System, i: nat)
    requires Invariant(s) && Enabled(s, Acquire(i))
    ensures Exclusive(Next(s, Acquire(i)))
  {
    var s' := Next(s, Acquire(i));
    var fresh_lock := s[i].program[s[i].taken];
    forall a, b, k | 0 <= a < |s'| && 0 <= b < |s'| && a != b && !s'[a].ended && 0 <= k < s'[a].taken <= |s'[a].program|
      ensures !Holds(s'[b], s'[a].program[k])
    {
      if a == i {
        assert s'[b] == s[b];
        if k == s[i].taken { assert !WaitsFor(s, i, b); } else { assert !Holds(s[b], s[i].program[k]); }
      } else if b == i {
        assert s'[a] == s[a] && !Holds(s[i], s[a].program[k]);
        assert !WaitsFor(s, i, a) && !Holds(s[a], fresh_lock);
      } else {
        assert !Holds(s[b], s[a].program[k]);
      }
    }
  }

  lemma EndKeepsExclusive(s: System, i: nat)
    requires Invariant(s) && i < |s|
    ensures Exclusive(s[i := s[i].(ended := true)])
  {
    var s' := s[i := s[i].(ended := true)];
    forall a, b, k | 0 <= a < |s'| && 0 <= b < |s'| && a != b && !s'[a].ended && 0 <= k < s'[a].taken <= |s'[a].program|
      ensures !Holds(s'[b], s'[a].program[k])
    {
      assert !Holds(s[b], s[a].program[k]);
    }
  }

  lemma StepKeepsInvariant(s: System, step: Step)
    requires Invariant(s) && Enabled(s, step)
    ensures Invariant(Next(s, step))
  {
    match step
    case Begin(op) =>
      LocksAscend(op);
      var s' := Next(s, step);
      forall a, b, k | 0 <= a < |s'| && 0 <= b < |s'| && a != b && !s'[a].ended
        && 0 <= k < s'[a].taken <= |s'[a].program|
        ensures !Holds(s'[b], s'[a].program[k])
      {
        if b < |s| { assert !Holds(s[b], s[a].program[k]); }
      }
    case Acquire(i) => AcquireKeepsExclusive(s, i);
    case Commit(i) => EndKeepsExclusive(s, i);
    case Abort(i) => EndKeepsExclusive(s, i);
  }

  lemma {:induction false} RunKeepsInvariant(s: System, steps: seq<Step>, s': System)
    requires Invariant(s) && Run(s, steps, s')
    ensures Invariant(s')
    decreases |steps|
  {
    if steps != [] {
      StepKeepsInvariant(s, steps[0]);
      RunKeepsInvariant(Next(s, steps[0]), steps[1..], s');
    }
  }

  lemma ReachableInvariant(s: System)
    requires Reachable(s)
    ensures Invariant(s)
  {
    var steps :| Run([], steps, s);
    RunKeepsInvariant([], steps, s);
  }

  /** Row locks exclude each other in every reachable state. */
  lemma MutualExclusion(s: System, i: nat, j: nat, k: nat, l: nat)
    requires Reachable(s) && i < |s| && j < |s| && i != j && !s[i].ended && !s[j].ended
    requires k < s[i].taken <= |s[i].program| && l < s[j].taken <= |s[j].program|
    ensures !Incompatible(s[j].program[l], s[i].program[k])
  {
    ReachableInvariant(s);
    assert !Holds(s[j], s[i].program[k]);
  }

  // ----- No deadlock -----

  /** Whoever a transaction waits for is itself ready or waits for a strictly later lock. */
  lemma WaitsForLater(s: System, i: nat, j: nat)
    requires Invariant(s) && WaitsFor(s, i, j) && Waiting(s[j])
    ensures Before(s[i].program[s[i].taken], s[j].program[s[j].taken])
  {
    var r := s[i].program[s[i].taken];
    var k :| 0 <= k < s[j].taken && Incompatible(s[j].program[k], r);
    assert Before(s[j].program[k], s[j].program[s[j].taken]);
  }

  /** A cycle in the waits-for relation. */
  ghost predicate Cycle(s: System, path: seq<nat>) {
    && path != []
    && (forall k | 0 <= k < |path| - 1 :: WaitsFor(s, path[k], path[k + 1]))
    && WaitsFor(s, path[|path| - 1], path[0])
  }

  lemma {:induction false} WaitingAscends(s: System, path: seq<nat>, k: nat)
    requires Invariant(s) && 0 < k < |path|
    requires forall k | 0 <= k < |path| - 1 :: WaitsFor(s, path[k], path[k + 1])
    requires forall k | 0 <= k < |path| :: path[k] < |s| && Waiting(s[path[k]])
    ensures path[0] < |s| && path[k] < |s| && Waiting(s[path[0]]) && Waiting(s[path[k]])
    ensures Before(s[path[0]].program[s[path[0]].taken], s[path[k]].program[s[path[k]].taken])
  {
    WaitsForLater(s, path[k - 1], path[k]);
    if k > 1 { WaitingAscends(s, path, k - 1); }
  }

  /** No reachable state of any set of CMS transactions contains a deadlock. */
  lemma NoDeadlock(s: System, path: seq<nat>)
    requires Reachable(s)
    ensures !Cycle(s, path)
  {
    ReachableInvariant(s);
    if Cycle(s, path) {
      var last := |path| - 1;
      forall k | 0 <= k < |path| ensures path[k] < |s| && Waiting(s[path[k]]) {
        if k < last { assert WaitsFor(s, path[k], path[k + 1]); }
      }
      if last > 0 { WaitingAscends(s, path, last); }
      WaitsForLater(s, path[last], path[0]);
      assert false;
    }
  }

  // ----- Progress -----

  predicate Live(s: System, i: nat) { i < |s| && !s[i].ended }

  /** Of the waiting transactions below n, one whose next lock no other's comes after. */
  lemma {:induction false} LastWaiting(s: System, n: nat) returns (m: nat)
    requires n <= |s| && exists i: nat :: i < n && Waiting(s[i])
    ensures m < n && Waiting(s[m])
    ensures forall i | 0 <= i < n && Waiting(s[i]) ::
      !Before(s[m].program[s[m].taken], s[i].program[s[i].taken])
  {
    if exists i: nat :: i < n - 1 && Waiting(s[i]) {
      m := LastWaiting(s, n - 1);
      if Waiting(s[n - 1]) && Before(s[m].program[s[m].taken], s[n - 1].program[s[n - 1].taken]) {
        m := n - 1;
      }
    } else {
      m := n - 1;
    }
  }

  /** While some transaction is unfinished, some unfinished one can take a lock or commit. */
  lemma SomeoneCanStep(s: System, i: nat) returns (step: Step)
    requires Reachable(s) && Live(s, i)
    ensures (step.Acquire? || step.Commit?) && Enabled(s, step)
  {
    ReachableInvariant(s);
    if j: nat :| j < |s| && !s[j].ended && s[j].taken == |s[j].program| {
      step := Commit(j);
    } else {
      assert Waiting(s[i]);
      var m := LastWaiting(s, |s|);
      forall j | 0 <= j < |s| ensures !WaitsFor(s, m, j) {
        if WaitsFor(s, m, j) {
          assert Waiting(s[j]);
          WaitsForLater(s, m, j);
        }
      }
      step := Acquire(m);
    }
  }

  /** Locks still to take, plus one for the commit, over all live transactions. */
  function Remaining(s: System): nat {
    if s == [] then 0
    else (if s[0].ended || s[0].taken > |s[0].program| then 0 else |s[0].program| - s[0].taken + 1) + Remaining(s[1..])
  }

  lemma {:induction false} RemainingUpdate(s: System, i: nat, t: Tx)
    requires i < |s|
    ensures Remaining(s[i := t]) == Remaining(s) - Remaining([s[i]]) + Remaining([t])
  {
    if i == 0 {
      assert s[i := t][1..] == s[1..];
      assert Remaining([t]) == Remaining([t]) + Remaining([]);
    } else {
      assert s[i := t][1..] == s[1..][i - 1 := t];
      RemainingUpdate(s[1..], i - 1, t);
    }
  }

  /** Every step but the start of a new transaction brings the running ones closer to the end. */
  lemma StepsRunOut(s: System, step: Step)
    requires Invariant(s) && Enabled(s, step) && !step.Begin?
    ensures Remaining(Next(s, step)) < Remaining(s)
  {
    match step
    case Acquire(i) => RemainingUpdate(s, i, s[i].(taken := s[i].taken + 1));
    case Commit(i) => RemainingUpdate(s, i, s[i].(ended := true));
    case Abort(i) => RemainingUpdate(s, i, s[i].(ended := true));
  }

  /** From any reachable state all running transactions can finish. */
  lemma {:induction false} AllCanFinish(s: System, before: seq<Step>) returns (steps: seq<Step>, s': System)
    requires Run([], before, s)
    ensures Run(s, steps, s') && forall i | 0 <= i < |s'| :: s'[i].ended
    decreases Remaining(s)
  {
    assert Reachable(s);
    ReachableInvariant(s);
    if i: nat :| Live(s, i) {
      var step := SomeoneCanStep(s, i);
      StepsRunOut(s, step);
      RunSnoc([], before, s, step);
      var rest;
      rest, s' := AllCanFinish(Next(s, step), before + [step]);
      steps := [step] + rest;
      assert steps[1..] == rest;
    } else {
      forall i | 0 <= i < |s| ensures s[i].ended { assert !Live(s, i); }
      steps, s' := [], s;
    }
  }

  lemma {:induction false} RunSnoc(s: System, steps: seq<Step>, s': System, step: Step)
    requires Run(s, steps, s') && Enabled(s', step)
    ensures Run(s, steps + [step], Next(s', step))
    decreases |steps|
  {
    if steps == [] {
      assert [step][1..] == [];
      assert steps + [step] == [step];
    } else {
      assert (steps + [step])[1..] == steps[1..] + [step];
      RunSnoc(Next(s, steps[0]), steps[1..], s', step);
    }
  }
}
