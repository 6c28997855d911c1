/** Lesson exercises through draft, published and archived, with append-only revisions and reviews
    (exercise-authoring.service.ts, cms-workflow.ts). */
module ExerciseAuthoring {
  import opened Outcomes
  import opened JsonValues
  import Canonical
  import CanonicalRoundTrip

  type Content = JsValue

  datatype Hash = Sha256(text: Text)

  /** canonicalJson accepts the content. */
  predicate Prints(v: Content) {
    Canonical.CanonicalJson(v, Canonical.DEFAULT_MAX_DEPTH).Success?
  }

  ghost predicate Printable(v: Content) {
    WellFormed(v) && Prints(v)
  }

  /** sha256CanonicalJson; distinct texts have distinct digests. */
  function HashOf(v: Content): Hash
    requires Prints(v)
  {
    Sha256(Canonical.CanonicalJson(v, Canonical.DEFAULT_MAX_DEPTH).value)
  }

  /** Content hashes agree exactly when the contents are the same JSON value up to key order. */
  lemma HashTellsContent(a: Content, b: Content)
    requires Printable(a) && Printable(b)
    ensures HashOf(a) == HashOf(b) <==> SameUpToKeyOrder(a, b)
  {
    CanonicalRoundTrip.CanonicalJsonInjective(a, b, Canonical.DEFAULT_MAX_DEPTH);
  }

  // ----- Rows -----

  datatype Decision = Approved | ChangesRequested | Rejected

  datatype Review = Review(reviewerId: nat, decision: Decision, note: Option<string>)

  datatype Revision = Revision(
    id: nat, number: nat, snapshot: Content, contentHash: Option<Hash>, authorId: nat, reviews: seq<Review>)

  datatype Status = Draft | Published | Archived

  datatype Source = Source(dataSourceId: nat, sourceKey: string)

  datatype Exercise = Exercise(
    lessonId: nat, topicId: Option<nat>, live: Content, version: nat, status: Status, source: Option<Source>,
    createdBy: nat, updatedBy: nat, publishedBy: Option<nat>, publishedAt: Option<int>, deletedAt: Option<int>)

  datatype Action = Created | RevisionCreated | Reviewed | PublishedAction | ArchivedAction | ImportCompleted

  datatype Audit = Audit(actorId: nat, action: Action, targetId: nat)

  /** Revisions of an exercise are listed by revision number, reviews by time. */
  datatype Catalogue = Catalogue(
    exercises: map<nat, Exercise>, revisions: map<nat, seq<Revision>>, audits: seq<Audit>,
    nextExercise: nat, nextRevision: nat)

  datatype Actor = Actor(id: nat, isAdmin: bool)

  datatype Topic = Topic(lessonId: nat, isLive: bool)

  /** The other tables as a transaction finds them, and whether the database's own constraints
      accept what it writes. */
  datatype World = World(
    admins: set<nat>, lessons: map<nat, bool>, topics: map<nat, Topic>, readyAudio: set<nat>,
    sources: set<nat>, media: set<nat>, constraintsHold: bool)

  datatype Error = Forbidden | Unauthorized | NotFound | Conflict | Unprocessable | Internal

  /** Validated content and the jsonb value the database keeps of it. */
  datatype Written = Written(value: Content, stored: Content)

  ghost predicate Faithful(w: Written) {
    Printable(w.value) && Printable(w.stored) && SameUpToKeyOrder(w.stored, w.value)
  }

  datatype ExerciseType = Mcq | ListeningChoice | FillBlank | ArrangeSentence | SpeakingRepeat

  /** parseExerciseSnapshot in publish mode, with the value it leads the database to keep. */
  datatype Parsed = Parsed(kind: ExerciseType, mediaId: Option<nat>, written: Written)

  datatype Done = Done(exerciseId: nat, idempotent: bool)

  // ----- Guards, in the order the service checks them -----

  function LockParents(w: World, lessonId: nat, topicId: Option<nat>): Result<(), Error> {
    if lessonId !in w.lessons then Failure(NotFound)
    else if topicId.Some? && !(topicId.value in w.topics && w.topics[topicId.value].lessonId == lessonId)
    then Failure(Conflict)
    else Success(())
  }

  function Coherent(w: World, lessonId: nat, topicId: Option<nat>): Result<(), Error> {
    if !(lessonId in w.lessons && w.lessons[lessonId]) then Failure(NotFound)
    else if topicId.Some? && !(topicId.value in w.topics && w.topics[topicId.value] == Topic(lessonId, true))
    then Failure(Conflict)
    else Success(())
  }

  function LockExercise(c: Catalogue, w: World, actor: Actor, id: nat): Result<Exercise, Error> {
    if id !in c.exercises then Failure(NotFound)
    else if actor.id !in w.admins then Failure(Unauthorized)
    else match LockParents(w, c.exercises[id].lessonId, c.exercises[id].topicId)
      case Failure(error) => Failure(error)
      case Success(_) => Success(c.exercises[id])
  }

  predicate IsArchived(e: Exercise) {
    e.status.Archived? || e.deletedAt.Some?
  }

  function LockMutable(c: Catalogue, w: World, actor: Actor, id: nat): Result<Exercise, Error> {
    match LockExercise(c, w, actor, id)
    case Failure(error) => Failure(error)
    case Success(e) =>
      if IsArchived(e) then Failure(Conflict)
      else match Coherent(w, e.lessonId, e.topicId)
        case Failure(error) => Failure(error)
        case Success(_) => Success(e)
  }

  function RevisionsOf(revisions: map<nat, seq<Revision>>, id: nat): seq<Revision> {
    if id in revisions then revisions[id] else []
  }

  function Latest(revisions: seq<Revision>): Option<Revision> {
    if revisions == [] then None else Some(revisions[|revisions| - 1])
  }

  function RequestedLatest(revisions: seq<Revision>, revisionId: nat): Result<Revision, Error> {
    if forall i | 0 <= i < |revisions| :: revisions[i].id != revisionId then Failure(NotFound)
    else if revisions[|revisions| - 1].id != revisionId then Failure(Conflict)
    else Success(revisions[|revisions| - 1])
  }

  datatype PublishAction = Apply | Idempotent

  function LatestDecision(reviews: seq<Review>): Option<Decision> {
    if reviews == [] then None else Some(reviews[|reviews| - 1].decision)
  }

  function DecidePublishAction(
    requestedId: nat, latestId: nat, latestDecision: Option<Decision>, liveMatches: bool): Result<PublishAction, Error>
  {
    if requestedId != latestId then Failure(Conflict)
    else if latestDecision != Some(Approved) then Failure(Conflict)
    else Success(if liveMatches then Idempotent else Apply)
  }

  // ----- The steps as functions of the tables -----

  datatype Outcome = Outcome(catalogue: Catalogue, result: Result<Done, Error>)

  function Audited(audits: seq<Audit>, actorId: nat, action: Action, id: nat): seq<Audit> {
    audits + [Audit(actorId, action, id)]
  }

  /** A new draft row with its first revision. */
  function AddExercise(c: Catalogue, actorId: nat, lessonId: nat, topicId: Option<nat>, w: Written,
      source: Option<Source>): Catalogue
    requires Prints(w.value)
  {
    c.(exercises := c.exercises[c.nextExercise :=
         Exercise(lessonId, topicId, w.stored, 1, Draft, source, actorId, actorId, None, None, None)],
       revisions := c.revisions[c.nextExercise :=
         [Revision(c.nextRevision, 1, w.stored, Some(HashOf(w.value)), actorId, [])]],
       nextExercise := c.nextExercise + 1,
       nextRevision := c.nextRevision + 1)
  }

  function Create(c: Catalogue, w: World, actor: Actor, lessonId: nat, topicId: Option<nat>,
      authored: Option<Written>): Outcome
    requires authored.Some? ==> Prints(authored.value.value)
  {
    if !actor.isAdmin then Outcome(c, Failure(Forbidden))
    else if authored.None? then Outcome(c, Failure(Unprocessable))
    else if actor.id !in w.admins then Outcome(c, Failure(Unauthorized))
    else match LockParents(w, lessonId, topicId)
      case Failure(error) => Outcome(c, Failure(error))
      case Success(_) =>
        match Coherent(w, lessonId, topicId)
        case Failure(error) => Outcome(c, Failure(error))
        case Success(_) =>
          if !w.constraintsHold then Outcome(c, Failure(Conflict)) else
          Outcome(AddExercise(c, actor.id, lessonId, topicId, authored.value, None)
                    .(audits := Audited(c.audits, actor.id, Created, c.nextExercise)),
                  Success(Done(c.nextExercise, false)))
  }

  /** Append the next revision; a draft takes it live at once. */
  function AppendRevision(c: Catalogue, actorId: nat, id: nat, w: Written): Catalogue
    requires id in c.exercises && Prints(w.value)
  {
    var e := c.exercises[id];
    var revisions := RevisionsOf(c.revisions, id);
    var number := if revisions == [] then 1 else revisions[|revisions| - 1].number + 1;
    var added := Revision(c.nextRevision, number, w.stored, Some(HashOf(w.value)), actorId, []);
    c.(revisions := c.revisions[id := revisions + [added]],
       exercises := if e.status.Draft?
         then c.exercises[id := e.(live := w.stored, version := number, updatedBy := actorId)] else c.exercises,
       audits := Audited(c.audits, actorId, RevisionCreated, id),
       nextRevision := c.nextRevision + 1)
  }

  /** The latest revision already says this, by its hash or by its canonical text. */
  function SaysAlready(revisions: seq<Revision>, value: Content): Result<bool, Error>
    requires Prints(value)
  {
    if revisions == [] then Success(false) else
    var latest := revisions[|revisions| - 1];
    if latest.contentHash == Some(HashOf(value)) then Success(true)
    else if !Prints(latest.snapshot) then Failure(Internal)
    else Success(HashOf(latest.snapshot) == HashOf(value))
  }

  function Revise(c: Catalogue, w: World, actor: Actor, id: nat, authored: Option<Written>): Outcome
    requires authored.Some? ==> Prints(authored.value.value)
  {
    if !actor.isAdmin then Outcome(c, Failure(Forbidden))
    else if authored.None? then Outcome(c, Failure(Unprocessable))
    else match LockMutable(c, w, actor, id)
      case Failure(error) => Outcome(c, Failure(error))
      case Success(e) =>
        match SaysAlready(RevisionsOf(c.revisions, id), authored.value.value)
        case Failure(error) => Outcome(c, Failure(error))
        case Success(says) =>
          if says then Outcome(c, Success(Done(id, true)))
          else if !w.constraintsHold then Outcome(c, Failure(Conflict))
          else Outcome(AppendRevision(c, actor.id, id, authored.value), Success(Done(id, false)))
  }

  function AppendReview(c: Catalogue, id: nat, review: Review): Catalogue
    requires id in c.revisions && c.revisions[id] != []
  {
    var revisions := c.revisions[id];
    var last := |revisions| - 1;
    var reviewed := revisions[last].(reviews := revisions[last].reviews + [review]);
    c.(revisions := c.revisions[id := revisions[last := reviewed]],
       audits := Audited(c.audits, review.reviewerId, Reviewed, id))
  }

  function LatestReview(reviews: seq<Review>): Option<Review> {
    if reviews == [] then None else Some(reviews[|reviews| - 1])
  }

  function ReviewRevision(c: Catalogue, w: World, actor: Actor, id: nat, revisionId: nat, decision: Decision,
      note: Option<string>): Outcome {
    if !actor.isAdmin then Outcome(c, Failure(Forbidden)) else
    match LockMutable(c, w, actor, id)
    case Failure(error) => Outcome(c, Failure(error))
    case Success(_) =>
      match RequestedLatest(RevisionsOf(c.revisions, id), revisionId)
      case Failure(error) => Outcome(c, Failure(error))
      case Success(revision) =>
        var review := Review(actor.id, decision, note);
        if LatestReview(revision.reviews) == Some(review) then Outcome(c, Success(Done(id, true)))
        else if !w.constraintsHold then Outcome(c, Failure(Conflict))
        else Outcome(AppendReview(c, id, review), Success(Done(id, false)))
  }

  predicate MediaReady(kind: ExerciseType, mediaId: Option<nat>, w: World) {
    kind.ListeningChoice? ==> mediaId.Some? && mediaId.value in w.readyAudio
  }

  predicate LiveMatches(e: Exercise, revision: Revision, snapshot: Content)
    requires e.status.Published? ==> Prints(e.live)
    requires Prints(snapshot)
  {
    e.status.Published? && e.version == revision.number && HashOf(e.live) == HashOf(snapshot)
  }

  function MarkPublished(c: Catalogue, actorId: nat, id: nat, number: nat, stored: Content, now: int): Catalogue
    requires id in c.exercises
  {
    c.(exercises := c.exercises[id := c.exercises[id].(
         live := stored, version := number, status := Published, publishedAt := Some(now), publishedBy := Some(actorId),
         updatedBy := actorId)],
       audits := Audited(c.audits, actorId, PublishedAction, id))
  }

  /** The gate of a publish: everything checked once the exercise is locked and live. */
  function PublishGate(e: Exercise, revisions: seq<Revision>, w: World, revisionId: nat, parsed: Result<Parsed, Error>)
    : Result<(Revision, PublishAction), Error>
    requires parsed.Success? ==> Prints(parsed.value.written.value)
  {
    match RequestedLatest(revisions, revisionId)
    case Failure(error) => Failure(error)
    case Success(revision) =>
      if parsed.Failure? then Failure(parsed.error) else
      var snapshot := parsed.value.written.value;
      if parsed.value.kind.SpeakingRepeat? then Failure(Unprocessable)
      else if revision.contentHash != Some(HashOf(snapshot)) then Failure(Conflict)
      else if !MediaReady(parsed.value.kind, parsed.value.mediaId, w) then Failure(Unprocessable)
      else if e.status.Published? && !Prints(e.live) then Failure(Internal)
      else match DecidePublishAction(
        revisionId, revision.id, LatestDecision(revision.reviews), LiveMatches(e, revision, snapshot))
        case Failure(error) => Failure(error)
        case Success(action) => Success((revision, action))
  }

  function Publish(c: Catalogue, w: World, actor: Actor, id: nat, revisionId: nat, parsed: Result<Parsed, Error>,
      now: int): Outcome
    requires parsed.Success? ==> Prints(parsed.value.written.value)
  {
    if !actor.isAdmin then Outcome(c, Failure(Forbidden)) else
    match LockMutable(c, w, actor, id)
    case Failure(error) => Outcome(c, Failure(error))
    case Success(e) =>
      match PublishGate(e, RevisionsOf(c.revisions, id), w, revisionId, parsed)
      case Failure(error) => Outcome(c, Failure(error))
      case Success((revision, action)) =>
        if action.Idempotent? then Outcome(c, Success(Done(id, true)))
        else if !w.constraintsHold then Outcome(c, Failure(Conflict))
        else
          Outcome(MarkPublished(c, actor.id, id, revision.number, parsed.value.written.stored, now),
                  Success(Done(id, false)))
  }

  function MarkArchived(c: Catalogue, actorId: nat, id: nat, now: int): Catalogue
    requires id in c.exercises
  {
    c.(exercises := c.exercises[id :=
         c.exercises[id].(status := Archived, deletedAt := Some(now), updatedBy := actorId)],
       audits := Audited(c.audits, actorId, ArchivedAction, id))
  }

  function Archive(c: Catalogue, w: World, actor: Actor, id: nat, now: int): Outcome {
    if !actor.isAdmin then Outcome(c, Failure(Forbidden)) else
    match LockExercise(c, w, actor, id)
    case Failure(error) => Outcome(c, Failure(error))
    case Success(e) =>
      if IsArchived(e) then Outcome(c, Success(Done(id, true)))
      else if !w.constraintsHold then Outcome(c, Failure(Conflict))
      else Outcome(MarkArchived(c, actor.id, id, now), Success(Done(id, false)))
  }

  class ExerciseAuthoringService {
    var exercises: map<nat, Exercise>
    var revisions: map<nat, seq<Revision>>
    var audits: seq<Audit>
    var nextExercise: nat
    var nextRevision: nat

    ghost function Contents(): Catalogue
      reads this
    {
      Catalogue(exercises, revisions, audits, nextExercise, nextRevision)
    }

    method LockExerciseHierarchy(w: World, actor: Actor, id: nat) returns (r: Result<Exercise, Error>)
      ensures r == LockExercise(Contents(), w, actor, id)
    {
      if id !in exercises { return Failure(NotFound); }
      if actor.id !in w.admins { return Failure(Unauthorized); }
      var exercise := exercises[id];
      if exercise.lessonId !in w.lessons { return Failure(NotFound); }
      if exercise.topicId.Some? {
        if exercise.topicId.value !in w.topics || w.topics[exercise.topicId.value].lessonId != exercise.lessonId {
          return Failure(Conflict);
        }
      }
      r := Success(exercise);
    }

    method LockMutableExercise(w: World, actor: Actor, id: nat) returns (r: Result<Exercise, Error>)
      ensures r == LockMutable(Contents(), w, actor, id)
    {
      r := LockExerciseHierarchy(w, actor, id);
      if r.Failure? { return; }
      if IsArchived(r.value) { return Failure(Conflict); }
      var coherent := Coherent(w, r.value.lessonId, r.value.topicId);
      if coherent.Failure? { return Failure(coherent.error); }
    }

    method CreateExercise(w: World, actor: Actor, lessonId: nat, topicId: Option<nat>, authored: Option<Written>)
      returns (r: Result<Done, Error>)
      requires authored.Some? ==> Prints(authored.value.value)
      modifies this
      ensures Outcome(Contents(), r) == Create(old(Contents()), w, actor, lessonId, topicId, authored)
    {
      hide Prints, HashOf;
      if !actor.isAdmin { return Failure(Forbidden); }
      if authored.None? { return Failure(Unprocessable); }
      if actor.id !in w.admins { return Failure(Unauthorized); }
      var locked := LockParents(w, lessonId, topicId);
      if locked.Failure? { return Failure(locked.error); }
      var coherent := Coherent(w, lessonId, topicId);
      if coherent.Failure? { return Failure(coherent.error); }
      if !w.constraintsHold { return Failure(Conflict); }
      var id := InsertDraft(actor.id, lessonId, topicId, authored.value, None);
      audits := audits + [Audit(actor.id, Created, id)];
      r := Success(Done(id, false));
    }

    /** The two inserts shared by createExercise and the import loop. */
    method InsertDraft(actorId: nat, lessonId: nat, topicId: Option<nat>, written: Written,
        source: Option<Source>) returns (id: nat)
      requires Prints(written.value)
      modifies `exercises, `revisions, `nextExercise, `nextRevision
      ensures Contents() == AddExercise(old(Contents()), actorId, lessonId, topicId, written, source)
      ensures id == old(nextExercise)
    {
      hide Prints, HashOf;
      id := nextExercise;
      exercises := exercises[id :=
        Exercise(lessonId, topicId, written.stored, 1, Draft, source, actorId, actorId, None, None, None)];
      nextExercise := nextExercise + 1;
      revisions := revisions[id :=
        [Revision(nextRevision, 1, written.stored, Some(HashOf(written.value)), actorId, [])]];
      nextRevision := nextRevision + 1;
    }

    method CreateExerciseRevision(w: World, actor: Actor, id: nat,
        authored: Option<Written>) returns (r: Result<Done, Error>)
      requires authored.Some? ==> Prints(authored.value.value)
      modifies this
      ensures Outcome(Contents(), r) == Revise(old(Contents()), w, actor, id, authored)
    {
      hide Prints, HashOf;
      if !actor.isAdmin { return Failure(Forbidden); }
      if authored.None? { return Failure(Unprocessable); }
      var exercise := LockMutableExercise(w, actor, id);
      if exercise.Failure? { return Failure(exercise.error); }
      var history := RevisionsOf(revisions, id);
      var latest := Latest(history);
      var contentHash := HashOf(authored.value.value);
      if latest.Some? {
        if latest.value.contentHash == Some(contentHash) { return Success(Done(id, true)); }
        if !Prints(latest.value.snapshot) { return Failure(Internal); }
        if HashOf(latest.value.snapshot) == contentHash { return Success(Done(id, true)); }
      }
      if !w.constraintsHold { return Failure(Conflict); }
      var nextNumber := (if latest.Some? then latest.value.number else 0) + 1;
      revisions := revisions[id :=
        history + [Revision(nextRevision, nextNumber, authored.value.stored, Some(contentHash), actor.id, [])]];
      nextRevision := nextRevision + 1;
      if exercise.value.status.Draft? {
        exercises := exercises[id :=
          exercise.value.(live := authored.value.stored, version := nextNumber, updatedBy := actor.id)];
      }
      audits := audits + [Audit(actor.id, RevisionCreated, id)];
      r := Success(Done(id, false));
    }

    method ReviewExerciseRevision(w: World, actor: Actor, id: nat, revisionId: nat, decision: Decision,
        note: Option<string>)
      returns (r: Result<Done, Error>)
      modifies this
      ensures Outcome(Contents(), r) == ReviewRevision(old(Contents()), w, actor, id, revisionId, decision, note)
    {
      if !actor.isAdmin { return Failure(Forbidden); }
      var exercise := LockMutableExercise(w, actor, id);
      if exercise.Failure? { return Failure(exercise.error); }
      var history := RevisionsOf(revisions, id);
      var requested := RequestedLatest(history, revisionId);
      if requested.Failure? { return Failure(requested.error); }
      var latestReview := LatestReview(requested.value.reviews);
      if latestReview.Some? && latestReview.value.reviewerId == actor.id
         && latestReview.value.decision == decision && latestReview.value.note == note {
        return Success(Done(id, true));
      }
      if !w.constraintsHold { return Failure(Conflict); }
      var reviewed := requested.value.(reviews := requested.value.reviews + [Review(actor.id, decision, note)]);
      revisions := revisions[id := history[|history| - 1 := reviewed]];
      audits := audits + [Audit(actor.id, Reviewed, id)];
      r := Success(Done(id, false));
    }

    method PublishExerciseRevision(w: World, actor: Actor, id: nat, revisionId: nat, parsed: Result<Parsed, Error>,
        now: int)
      returns (r: Result<Done, Error>)
      requires parsed.Success? ==> Prints(parsed.value.written.value)
      modifies this
      ensures Outcome(Contents(), r) == Publish(old(Contents()), w, actor, id, revisionId, parsed, now)
    {
      hide Prints, HashOf;
      if !actor.isAdmin { return Failure(Forbidden); }
      var exercise := LockMutableExercise(w, actor, id);
      if exercise.Failure? { return Failure(exercise.error); }
      var requested := RequestedLatest(RevisionsOf(revisions, id), revisionId);
      if requested.Failure? { return Failure(requested.error); }
      var revision := requested.value;
      if parsed.Failure? { return Failure(parsed.error); }
      if parsed.value.kind.SpeakingRepeat? { return Failure(Unprocessable); }
      var snapshot := parsed.value.written.value;
      if revision.contentHash.None? || HashOf(snapshot) != revision.contentHash.value { return Failure(Conflict); }
      if !MediaReady(parsed.value.kind, parsed.value.mediaId, w) { return Failure(Unprocessable); }
      if exercise.value.status.Published? && !Prints(exercise.value.live) { return Failure(Internal); }
      var action := DecidePublishAction(
        revisionId, revision.id, LatestDecision(revision.reviews), LiveMatches(exercise.value, revision, snapshot));
      if action.Failure? { return Failure(action.error); }
      if action.value.Idempotent? { return Success(Done(id, true)); }
      if !w.constraintsHold { return Failure(Conflict); }
      exercises := exercises[id := exercise.value.(
        live := parsed.value.written.stored, version := revision.number, status := Published, publishedAt := Some(now),
        publishedBy := Some(actor.id), updatedBy := actor.id)];
      audits := audits + [Audit(actor.id, PublishedAction, id)];
      r := Success(Done(id, false));
    }

    method ArchiveExercise(w: World, actor: Actor, id: nat, now: int) returns (r: Result<Done, Error>)
      modifies this
      ensures Outcome(Contents(), r) == Archive(old(Contents()), w, actor, id, now)
    {
      if !actor.isAdmin { return Failure(Forbidden); }
      var exercise := LockExerciseHierarchy(w, actor, id);
      if exercise.Failure? { return Failure(exercise.error); }
      if IsArchived(exercise.value) { return Success(Done(id, true)); }
      if !w.constraintsHold { return Failure(Conflict); }
      exercises := exercises[id := exercise.value.(status := Archived, deletedAt := Some(now), updatedBy := actor.id)];
      audits := audits + [Audit(actor.id, ArchivedAction, id)];
      r := Success(Done(id, false));
    }
  }

  // ----- What every run keeps -----

  predicate ApprovedOnce(revision: Revision) {
    exists k :: 0 <= k < |revision.reviews| && revision.reviews[k].decision.Approved?
  }

  ghost predicate RevisionSound(revision: Revision, number: nat) {
    revision.number == number && Printable(revision.snapshot) && Some(HashOf(revision.snapshot)) == revision.contentHash
  }

  ghost predicate RevisionsSound(revisions: seq<Revision>) {
    revisions != [] && forall i | 0 <= i < |revisions| :: RevisionSound(revisions[i], i + 1)
  }

  /** The live row shows revision `version`; a draft shows the latest one, a published row an
      approved one. */
  ghost predicate RowSound(e: Exercise, revisions: seq<Revision>) {
    && 1 <= e.version <= |revisions|
    && Printable(e.live) && Some(HashOf(e.live)) == revisions[e.version - 1].contentHash
    && (e.status.Draft? ==> e.version == |revisions|)
    && (e.status.Published? ==> ApprovedOnce(revisions[e.version - 1]))
    && (e.status.Archived? <==> e.deletedAt.Some?)
  }

  ghost predicate ExerciseSound(c: Catalogue, id: nat)
    requires id in c.exercises
  {
    id < c.nextExercise && id in c.revisions && RevisionsSound(c.revisions[id])
      && RowSound(c.exercises[id], c.revisions[id])
  }

  ghost predicate Sound(c: Catalogue) {
    && c.revisions.Keys == c.exercises.Keys
    && forall id | id in c.exercises :: ExerciseSound(c, id)
  }

  /** Revision `later` is `earlier` with reviews appended. */
  predicate RevisionGrows(earlier: Revision, later: Revision) {
    later == earlier.(reviews := later.reviews) && earlier.reviews <= later.reviews
  }

  predicate RevisionsGrow(earlier: seq<Revision>, later: seq<Revision>) {
    |earlier| <= |later| && forall i | 0 <= i < |earlier| :: RevisionGrows(earlier[i], later[i])
  }

  /** How one exercise may differ between two moments of a run. */
  predicate Evolves(e: Exercise, revisions: seq<Revision>, e': Exercise, revisions': seq<Revision>) {
    && RevisionsGrow(revisions, revisions')
    && e.version <= e'.version
    && e'.lessonId == e.lessonId && e'.topicId == e.topicId && e'.source == e.source && e'.createdBy == e.createdBy
    && (IsArchived(e) ==> e' == e && revisions' == revisions)
    && (e.status.Published? ==> !e'.status.Draft?)
  }

  ghost predicate CatalogueEvolves(c: Catalogue, c': Catalogue) {
    && c.audits <= c'.audits && c.nextExercise <= c'.nextExercise
    && (forall id | id in c.exercises && id in c.revisions ::
          id in c'.exercises && id in c'.revisions
          && Evolves(c.exercises[id], c.revisions[id], c'.exercises[id], c'.revisions[id]))
  }

  // ----- Preservation -----

  lemma StoredHash(w: Written)
    requires Faithful(w)
    ensures HashOf(w.stored) == HashOf(w.value)
  {
    HashTellsContent(w.stored, w.value);
  }

  lemma GrowsRefl(revisions: seq<Revision>)
    ensures RevisionsGrow(revisions, revisions)
  {
  }

  lemma EvolvesRefl(c: Catalogue)
    ensures CatalogueEvolves(c, c)
  {
  }

  lemma EvolvesTrans(a: Catalogue, b: Catalogue, c: Catalogue)
    requires CatalogueEvolves(a, b) && CatalogueEvolves(b, c)
    ensures CatalogueEvolves(a, c)
  {
    forall id | id in a.exercises && id in a.revisions
      ensures id in c.exercises && id in c.revisions
        && Evolves(a.exercises[id], a.revisions[id], c.exercises[id], c.revisions[id])
    {
      hide RevisionsGrow;
      GrowTrans(a.revisions[id], b.revisions[id], c.revisions[id]);
    }
  }

  lemma GrowTrans(a: seq<Revision>, b: seq<Revision>, c: seq<Revision>)
    requires RevisionsGrow(a, b) && RevisionsGrow(b, c)
    ensures RevisionsGrow(a, c)
  {
    forall i | 0 <= i < |a| ensures RevisionGrows(a[i], c[i]) {
      assert RevisionGrows(a[i], b[i]) && RevisionGrows(b[i], c[i]);
    }
  }

  lemma NewDraftSound(c: Catalogue, actorId: nat, lessonId: nat, topicId: Option<nat>, w: Written,
      source: Option<Source>)
    requires Faithful(w)
    ensures var c' := AddExercise(c, actorId, lessonId, topicId, w, source);
      RevisionsSound(c'.revisions[c.nextExercise])
        && RowSound(c'.exercises[c.nextExercise], c'.revisions[c.nextExercise])
  {
    StoredHash(w);
    assert Printable(w.stored);
    hide Printable, HashOf, Prints;
  }

  lemma AddKeepsRest(c: Catalogue, actorId: nat, lessonId: nat, topicId: Option<nat>, w: Written,
      source: Option<Source>)
    requires Sound(c) && Prints(w.value)
    ensures c.nextExercise !in c.exercises
    ensures CatalogueEvolves(c, AddExercise(c, actorId, lessonId, topicId, w, source))
  {
    hide RevisionsSound, RowSound, RevisionsGrow, HashOf, Prints;
    assert c.nextExercise in c.exercises ==> ExerciseSound(c, c.nextExercise);
    hide ExerciseSound;
    forall id | id in c.exercises ensures RevisionsGrow(c.revisions[id], c.revisions[id]) {
      GrowsRefl(c.revisions[id]);
    }
  }

  lemma AddKeepsSound(c: Catalogue, actorId: nat, lessonId: nat, topicId: Option<nat>, w: Written,
      source: Option<Source>)
    requires Sound(c) && Faithful(w)
    ensures c.nextExercise !in c.exercises
    ensures Sound(AddExercise(c, actorId, lessonId, topicId, w, source))
    ensures CatalogueEvolves(c, AddExercise(c, actorId, lessonId, topicId, w, source))
  {
    NewDraftSound(c, actorId, lessonId, topicId, w, source);
    AddKeepsRest(c, actorId, lessonId, topicId, w, source);
    hide Printable, HashOf, Prints, Faithful, CatalogueEvolves, RevisionsSound, RowSound;
    var c' := AddExercise(c, actorId, lessonId, topicId, w, source);
    forall id | id in c'.exercises ensures ExerciseSound(c', id) {
      if id in c.exercises { assert ExerciseSound(c, id); }
    }
  }

  /** Replacing one exercise's row and revisions by sound ones that evolve from them. */
  lemma UpdateKeepsSound(c: Catalogue, c': Catalogue, id: nat)
    requires Sound(c) && id in c.exercises && id in c'.exercises && id in c'.revisions
    requires c'.exercises == c.exercises[id := c'.exercises[id]] && c'.revisions == c.revisions[id := c'.revisions[id]]
    requires c'.nextExercise == c.nextExercise && c.audits <= c'.audits
    requires RevisionsSound(c'.revisions[id]) && RowSound(c'.exercises[id], c'.revisions[id])
    requires Evolves(c.exercises[id], c.revisions[id], c'.exercises[id], c'.revisions[id])
    ensures Sound(c') && CatalogueEvolves(c, c')
  {
    hide RevisionsSound, RowSound, RevisionsGrow;
    assert ExerciseSound(c, id);
    forall other | other in c'.exercises ensures ExerciseSound(c', other) {
      if other != id { assert ExerciseSound(c, other); }
    }
    forall other | other in c.exercises && other in c.revisions && other != id
      ensures Evolves(c.exercises[other], c.revisions[other], c'.exercises[other], c'.revisions[other])
    {
      GrowsRefl(c.revisions[other]);
    }
  }

  lemma MoreRevisions(revisions: seq<Revision>, added: Revision)
    requires RevisionsSound(revisions) && RevisionSound(added, |revisions| + 1)
    ensures RevisionsSound(revisions + [added]) && RevisionsGrow(revisions, revisions + [added])
  {
    hide RevisionSound;
    var more := revisions + [added];
    forall i | 0 <= i < |more| ensures RevisionSound(more[i], i + 1) {
      if i < |revisions| { assert RevisionSound(revisions[i], i + 1); }
    }
  }

  /** Appending revision n + 1 keeps the row sound, whether or not it goes live. */
  lemma MoreRevisionsRow(e: Exercise, revisions: seq<Revision>, added: Revision, actorId: nat)
    requires RowSound(e, revisions) && !IsArchived(e) && Printable(added.snapshot)
    requires added.contentHash == Some(HashOf(added.snapshot))
    ensures var e' :=
        if e.status.Draft? then e.(live := added.snapshot, version := |revisions| + 1, updatedBy := actorId) else e;
      RowSound(e', revisions + [added]) && e.version <= e'.version
  {
    hide HashOf;
  }

  lemma AppendRevisionKeepsSound(c: Catalogue, actorId: nat, id: nat, w: Written)
    requires Sound(c) && Faithful(w) && id in c.exercises && !IsArchived(c.exercises[id])
    ensures id in c.revisions
    ensures Sound(AppendRevision(c, actorId, id, w)) && CatalogueEvolves(c, AppendRevision(c, actorId, id, w))
  {
    StoredHash(w);
    assert Printable(w.stored) && Prints(w.value);
    LatestNumber(c, id);
    assert ExerciseSound(c, id);
    var revisions := c.revisions[id];
    var added := Revision(c.nextRevision, |revisions| + 1, w.stored, Some(HashOf(w.value)), actorId, []);
    assert RevisionSound(added, |revisions| + 1);
    hide Printable, HashOf, Faithful, Prints, RevisionSound, RowSound, RevisionsSound, RevisionsGrow;
    MoreRevisions(revisions, added);
    MoreRevisionsRow(c.exercises[id], revisions, added, actorId);
    UpdateKeepsSound(c, AppendRevision(c, actorId, id, w), id);
  }

  lemma AppendReviewKeepsSound(c: Catalogue, id: nat, review: Review)
    requires Sound(c) && id in c.exercises && !IsArchived(c.exercises[id])
    ensures id in c.revisions && c.revisions[id] != []
    ensures Sound(AppendReview(c, id, review)) && CatalogueEvolves(c, AppendReview(c, id, review))
  {
    hide Printable, HashOf;
    assert ExerciseSound(c, id);
    var c' := AppendReview(c, id, review);
    var revisions, revisions' := c.revisions[id], c'.revisions[id];
    forall i | 0 <= i < |revisions|
      ensures RevisionSound(revisions'[i], i + 1) && RevisionGrows(revisions[i], revisions'[i])
    {
      assert RevisionSound(revisions[i], i + 1);
    }
    hide RowSound, RevisionsSound, RevisionsGrow;
    UpdateKeepsSound(c, c', id);
  }

  lemma MarkPublishedKeepsSound(c: Catalogue, actorId: nat, id: nat, w: Written, now: int)
    requires Sound(c) && Faithful(w) && id in c.exercises && !IsArchived(c.exercises[id]) && id in c.revisions
    requires c.revisions[id] != []
    requires var latest := c.revisions[id][|c.revisions[id]| - 1];
      Some(HashOf(w.value)) == latest.contentHash && LatestDecision(latest.reviews) == Some(Approved)
    ensures var c' := MarkPublished(c, actorId, id, |c.revisions[id]|, w.stored, now);
      Sound(c') && CatalogueEvolves(c, c')
  {
    StoredHash(w);
    assert Printable(w.stored);
    hide Printable, HashOf, Faithful;
    assert ExerciseSound(c, id);
    var revisions := c.revisions[id];
    var c' := MarkPublished(c, actorId, id, |revisions|, w.stored, now);
    var latest := revisions[|revisions| - 1];
    assert latest.reviews[|latest.reviews| - 1].decision.Approved?;
    assert ApprovedOnce(latest);
    GrowsRefl(revisions);
    assert RowSound(c'.exercises[id], revisions);
    hide RowSound, RevisionsSound, RevisionsGrow;
    UpdateKeepsSound(c, c', id);
  }

  lemma MarkArchivedKeepsSound(c: Catalogue, actorId: nat, id: nat, now: int)
    requires Sound(c) && id in c.exercises && !IsArchived(c.exercises[id])
    ensures Sound(MarkArchived(c, actorId, id, now)) && CatalogueEvolves(c, MarkArchived(c, actorId, id, now))
  {
    hide Printable, HashOf;
    assert ExerciseSound(c, id);
    var c' := MarkArchived(c, actorId, id, now);
    GrowsRefl(c.revisions[id]);
    assert RowSound(c'.exercises[id], c.revisions[id]);
    hide RowSound, RevisionsSound, RevisionsGrow;
    UpdateKeepsSound(c, c', id);
  }

  // ----- Steps -----

  datatype Step =
    | CreateStep(w: World, actor: Actor, lessonId: nat, topicId: Option<nat>, authored: Option<Written>)
    | ReviseStep(w: World, actor: Actor, id: nat, authored: Option<Written>)
    | ReviewStep(w: World, actor: Actor, id: nat, revisionId: nat, decision: Decision, note: Option<string>)
    | PublishStep(w: World, actor: Actor, id: nat, revisionId: nat, parsed: Result<Parsed, Error>, now: int)
    | ArchiveStep(w: World, actor: Actor, id: nat, now: int)

  /** Validated content prints, and the database keeps the same value up to key order. */
  ghost predicate Enabled(step: Step) {
    match step
    case CreateStep(_, _, _, _, authored) => authored.Some? ==> Faithful(authored.value)
    case ReviseStep(_, _, _, authored) => authored.Some? ==> Faithful(authored.value)
    case PublishStep(_, _, _, _, parsed, _) => parsed.Success? ==> Faithful(parsed.value.written)
    case _ => true
  }

  ghost function Perform(c: Catalogue, step: Step): Outcome
    requires Enabled(step)
  {
    match step
    case CreateStep(w, actor, lessonId, topicId, authored) => Create(c, w, actor, lessonId, topicId, authored)
    case ReviseStep(w, actor, id, authored) => Revise(c, w, actor, id, authored)
    case ReviewStep(w, actor, id, revisionId, decision, note) =>
      ReviewRevision(c, w, actor, id, revisionId, decision, note)
    case PublishStep(w, actor, id, revisionId, parsed, now) => Publish(c, w, actor, id, revisionId, parsed, now)
    case ArchiveStep(w, actor, id, now) => Archive(c, w, actor, id, now)
  }

  lemma AuditedSound(c: Catalogue, c': Catalogue)
    requires Sound(c) && c'.exercises == c.exercises && c'.revisions == c.revisions && c'.nextExercise == c.nextExercise
    ensures Sound(c')
  {
    hide RevisionsSound, RowSound;
    forall id | id in c'.exercises ensures ExerciseSound(c', id) { assert ExerciseSound(c, id); }
  }

  lemma CreateKeepsSound(c: Catalogue, w: World, actor: Actor, lessonId: nat, topicId: Option<nat>,
      authored: Option<Written>)
    requires Sound(c) && (authored.Some? ==> Faithful(authored.value))
    ensures var c' := Create(c, w, actor, lessonId, topicId, authored).catalogue; Sound(c') && CatalogueEvolves(c, c')
  {
    hide AddExercise, Sound, Evolves;
    EvolvesRefl(c);
    var o := Create(c, w, actor, lessonId, topicId, authored);
    if o.result.Success? {
      AddKeepsSound(c, actor.id, lessonId, topicId, authored.value, None);
      AuditedSound(AddExercise(c, actor.id, lessonId, topicId, authored.value, None), o.catalogue);
    }
  }

  lemma ReviseKeepsSound(c: Catalogue, w: World, actor: Actor, id: nat, authored: Option<Written>)
    requires Sound(c) && (authored.Some? ==> Faithful(authored.value))
    ensures var c' := Revise(c, w, actor, id, authored).catalogue; Sound(c') && CatalogueEvolves(c, c')
  {
    hide AppendRevision, Sound, Evolves, CatalogueEvolves;
    EvolvesRefl(c);
    var o := Revise(c, w, actor, id, authored);
    if o.result.Success? && !o.result.value.idempotent {
      AppendRevisionKeepsSound(c, actor.id, id, authored.value);
    }
  }

  lemma ReviewKeepsSound(c: Catalogue, w: World, actor: Actor, id: nat, revisionId: nat, decision: Decision,
      note: Option<string>)
    requires Sound(c)
    ensures var c' := ReviewRevision(c, w, actor, id, revisionId, decision, note).catalogue;
      Sound(c') && CatalogueEvolves(c, c')
  {
    hide AppendReview, Sound, Evolves, CatalogueEvolves;
    EvolvesRefl(c);
    var o := ReviewRevision(c, w, actor, id, revisionId, decision, note);
    if o.result.Success? && !o.result.value.idempotent {
      AppendReviewKeepsSound(c, id, Review(actor.id, decision, note));
    }
  }

  lemma LatestNumber(c: Catalogue, id: nat)
    requires Sound(c) && id in c.exercises
    ensures id in c.revisions && c.revisions[id] != []
    ensures c.revisions[id][|c.revisions[id]| - 1].number == |c.revisions[id]|
  {
    hide RowSound, Printable;
    assert ExerciseSound(c, id);
    assert RevisionSound(c.revisions[id][|c.revisions[id]| - 1], |c.revisions[id]|);
  }

  lemma PublishKeepsSound(c: Catalogue, w: World, actor: Actor, id: nat, revisionId: nat,
      parsed: Result<Parsed, Error>, now: int)
    requires Sound(c) && (parsed.Success? ==> Faithful(parsed.value.written))
    ensures var c' := Publish(c, w, actor, id, revisionId, parsed, now).catalogue; Sound(c') && CatalogueEvolves(c, c')
  {
    hide MarkPublished, Sound, Evolves, CatalogueEvolves;
    EvolvesRefl(c);
    var o := Publish(c, w, actor, id, revisionId, parsed, now);
    if o.result.Success? && !o.result.value.idempotent {
      LatestNumber(c, id);
      MarkPublishedKeepsSound(c, actor.id, id, parsed.value.written, now);
    }
  }

  lemma ArchiveKeepsSound(c: Catalogue, w: World, actor: Actor, id: nat, now: int)
    requires Sound(c)
    ensures var c' := Archive(c, w, actor, id, now).catalogue; Sound(c') && CatalogueEvolves(c, c')
  {
    hide MarkArchived, Sound, Evolves, CatalogueEvolves;
    EvolvesRefl(c);
    var o := Archive(c, w, actor, id, now);
    if o.result.Success? && !o.result.value.idempotent {
      MarkArchivedKeepsSound(c, actor.id, id, now);
    }
  }

  /** Every step keeps the invariant, and rows, revisions and reviews only evolve as allowed. */
  lemma StepKeepsSound(c: Catalogue, step: Step)
    requires Sound(c) && Enabled(step)
    ensures Sound(Perform(c, step).catalogue) && CatalogueEvolves(c, Perform(c, step).catalogue)
  {
    hide Sound, CatalogueEvolves, Create, Revise, ReviewRevision, Publish, Archive;
    match step
    case CreateStep(w, actor, lessonId, topicId, authored) =>
      CreateKeepsSound(c, w, actor, lessonId, topicId, authored);
    case ReviseStep(w, actor, id, authored) => ReviseKeepsSound(c, w, actor, id, authored);
    case ReviewStep(w, actor, id, revisionId, decision, note) =>
      ReviewKeepsSound(c, w, actor, id, revisionId, decision, note);
    case PublishStep(w, actor, id, revisionId, parsed, now) =>
      PublishKeepsSound(c, w, actor, id, revisionId, parsed, now);
    case ArchiveStep(w, actor, id, now) => ArchiveKeepsSound(c, w, actor, id, now);
  }

  /** Only a publish changes what a published exercise shows, and only an archive retires it. */
  lemma PublishedContentIsStable(c: Catalogue, step: Step, id: nat)
    requires Sound(c) && Enabled(step) && id in c.exercises && c.exercises[id].status.Published?
    ensures var c' := Perform(c, step).catalogue;
      && id in c'.exercises
      && (c'.exercises[id].live != c.exercises[id].live || c'.exercises[id].version != c.exercises[id].version ==>
            step.PublishStep? && step.id == id)
      && (!c'.exercises[id].status.Published? ==> step.ArchiveStep? && step.id == id)
  {
    hide RevisionsSound, RowSound, Printable, HashOf, Prints, Faithful;
    assert ExerciseSound(c, id);
  }

  /** A failed or idempotent step changes nothing; an applied one adds exactly one audit record,
      of the actor who took it. */
  lemma AuditTrail(c: Catalogue, step: Step)
    requires Enabled(step)
    ensures var o := Perform(c, step);
      if o.result.Success? && !o.result.value.idempotent
      then |o.catalogue.audits| == |c.audits| + 1 && c.audits <= o.catalogue.audits
        && o.catalogue.audits[|c.audits|].actorId == step.actor.id
        && o.catalogue.audits[|c.audits|].targetId == o.result.value.exerciseId
      else o.catalogue == c
  {
    hide Printable, HashOf, Prints, Faithful;
  }

  lemma PublishEffect(c: Catalogue, w: World, actor: Actor, id: nat, revisionId: nat, parsed: Result<Parsed, Error>,
      now: int)
    requires parsed.Success? ==> Prints(parsed.value.written.value)
    requires Publish(c, w, actor, id, revisionId, parsed, now).result.Success?
    ensures var c' := Publish(c, w, actor, id, revisionId, parsed, now).catalogue;
      && c'.revisions == c.revisions && id in c'.exercises && c'.exercises[id].status.Published? && id in c.revisions
      && c.revisions[id] != []
      && var latest := c.revisions[id][|c.revisions[id]| - 1];
         && latest.id == revisionId && LatestDecision(latest.reviews) == Some(Approved)
         && c'.exercises[id].version == latest.number
  {
    hide HashOf, Prints;
  }

  /** After a successful publish, applied or idempotent, the row is published, shows the latest
      revision, and that revision's latest review approves it. */
  lemma PublishShowsLatest(c: Catalogue, w: World, actor: Actor, id: nat, revisionId: nat,
      parsed: Result<Parsed, Error>, now: int)
    requires Sound(c) && (parsed.Success? ==> Faithful(parsed.value.written))
    requires Publish(c, w, actor, id, revisionId, parsed, now).result.Success?
    ensures var c' := Publish(c, w, actor, id, revisionId, parsed, now).catalogue;
      && id in c'.exercises && id in c'.revisions && c'.exercises[id].status.Published?
      && c'.exercises[id].version == |c'.revisions[id]| > 0
      && var latest := c'.revisions[id][|c'.revisions[id]| - 1];
         && latest.id == revisionId && LatestDecision(latest.reviews) == Some(Approved)
         && SameUpToKeyOrder(c'.exercises[id].live, latest.snapshot)
  {
    hide Publish, Sound, SameUpToKeyOrder, CatalogueEvolves, HashOf, Prints;
    PublishKeepsSound(c, w, actor, id, revisionId, parsed, now);
    PublishEffect(c, w, actor, id, revisionId, parsed, now);
    var c' := Publish(c, w, actor, id, revisionId, parsed, now).catalogue;
    LatestNumber(c', id);
    ShownRevision(c', id);
  }

  /** The live content is the snapshot of revision `version`, up to the order of object keys. */
  lemma ShownRevision(c: Catalogue, id: nat)
    requires Sound(c) && id in c.exercises
    ensures id in c.revisions && 1 <= c.exercises[id].version <= |c.revisions[id]|
    ensures SameUpToKeyOrder(c.exercises[id].live, c.revisions[id][c.exercises[id].version - 1].snapshot)
  {
    assert ExerciseSound(c, id);
    var i := c.exercises[id].version - 1;
    assert RevisionSound(c.revisions[id][i], i + 1);
    HashTellsContent(c.exercises[id].live, c.revisions[id][i].snapshot);
  }

  /** A published exercise always shows an approved revision. */
  lemma PublishedShowsApproved(c: Catalogue, id: nat)
    requires Sound(c) && id in c.exercises && c.exercises[id].status.Published?
    ensures id in c.revisions
    ensures exists i :: (
      0 <= i < |c.revisions[id]| && ApprovedOnce(c.revisions[id][i])
      && SameUpToKeyOrder(c.exercises[id].live, c.revisions[id][i].snapshot))
  {
    ShownRevision(c, id);
    assert ExerciseSound(c, id);
    var i := c.exercises[id].version - 1;
    assert ApprovedOnce(c.revisions[id][i]);
  }

  lemma RepeatedRevise(c: Catalogue, w: World, actor: Actor, id: nat, authored: Option<Written>)
    requires authored.Some? ==> Faithful(authored.value)
    requires Revise(c, w, actor, id, authored).result.Success?
    ensures var c' := Revise(c, w, actor, id, authored).catalogue;
      Revise(c', w, actor, id, authored) == Outcome(c', Success(Done(id, true)))
  {
    hide HashOf, Prints;
  }

  lemma RepeatedReview(c: Catalogue, w: World, actor: Actor, id: nat, revisionId: nat, decision: Decision,
      note: Option<string>)
    requires ReviewRevision(c, w, actor, id, revisionId, decision, note).result.Success?
    ensures var c' := ReviewRevision(c, w, actor, id, revisionId, decision, note).catalogue;
      ReviewRevision(c', w, actor, id, revisionId, decision, note) == Outcome(c', Success(Done(id, true)))
  {
    var o := ReviewRevision(c, w, actor, id, revisionId, decision, note);
    if !o.result.value.idempotent {
      var revisions, revisions' := c.revisions[id], o.catalogue.revisions[id];
      assert revisions'[|revisions'| - 1].id == revisionId;
    }
  }

  lemma RepeatedPublish(c: Catalogue, w: World, actor: Actor, id: nat, revisionId: nat, parsed: Result<Parsed, Error>,
      now: int, later: int)
    requires parsed.Success? ==> Faithful(parsed.value.written)
    requires Publish(c, w, actor, id, revisionId, parsed, now).result.Success?
    ensures var c' := Publish(c, w, actor, id, revisionId, parsed, now).catalogue;
      Publish(c', w, actor, id, revisionId, parsed, later) == Outcome(c', Success(Done(id, true)))
  {
    StoredHash(parsed.value.written);
    hide HashOf, RequestedLatest, MediaReady, SameUpToKeyOrder;
  }

  /** The same request made again at a later time. */
  function Again(step: Step, later: int): Step {
    match step
    case PublishStep(w, actor, id, revisionId, parsed, _) => PublishStep(w, actor, id, revisionId, parsed, later)
    case ArchiveStep(w, actor, id, _) => ArchiveStep(w, actor, id, later)
    case _ => step
  }

  /** Repeating a successful revise, review, publish or archive succeeds and changes nothing. */
  lemma RepeatChangesNothing(c: Catalogue, step: Step, later: int)
    requires Enabled(step) && !step.CreateStep? && Perform(c, step).result.Success?
    ensures Enabled(Again(step, later))
    ensures var o := Perform(c, step);
      Perform(o.catalogue, Again(step, later)) == Outcome(o.catalogue, Success(o.result.value.(idempotent := true)))
  {
    hide HashOf, Prints;
    match step
    case ReviseStep(w, actor, id, authored) => RepeatedRevise(c, w, actor, id, authored);
    case ReviewStep(w, actor, id, revisionId, decision, note) =>
      RepeatedReview(c, w, actor, id, revisionId, decision, note);
    case PublishStep(w, actor, id, revisionId, parsed, now) =>
      RepeatedPublish(c, w, actor, id, revisionId, parsed, now, later);
    case ArchiveStep(w, actor, id, now) =>
  }
}
