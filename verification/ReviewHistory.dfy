/** What reviews, publishes and archives record, and over runs that every review in the tables was
    given (exercise-authoring.service.ts, cms-workflow.ts). */
module ReviewHistory {
  import opened Outcomes
  import opened JsonValues
  import opened ExerciseAuthoring
  import Import = ExerciseImport

  // ----- What one step records -----

  /** The step took effect. */
  ghost predicate Applied(c: Catalogue, step: Step)
    requires Enabled(step)
  {
    Perform(c, step).result.Success? && !Perform(c, step).result.value.idempotent
  }

  /** The actor may change the exercise: both of them present, its parents live, itself unarchived. */
  ghost predicate MayChange(c: Catalogue, w: World, actor: Actor, id: nat) {
    && actor.isAdmin && actor.id in w.admins && id in c.exercises
    && c.exercises[id].status != Archived && c.exercises[id].deletedAt == None
    && c.exercises[id].lessonId in w.lessons && w.lessons[c.exercises[id].lessonId]
    && (c.exercises[id].topicId.Some? ==>
         && c.exercises[id].topicId.value in w.topics
         && w.topics[c.exercises[id].topicId.value].lessonId == c.exercises[id].lessonId
         && w.topics[c.exercises[id].topicId.value].isLive)
  }

  ghost predicate IsLatest(c: Catalogue, id: nat, revisionId: nat) {
    id in c.revisions && c.revisions[id] != [] && c.revisions[id][|c.revisions[id]| - 1].id == revisionId
  }

  lemma MutableExact(c: Catalogue, w: World, actor: Actor, id: nat)
    ensures actor.isAdmin && LockMutable(c, w, actor, id).Success? <==> MayChange(c, w, actor, id)
    ensures MayChange(c, w, actor, id) ==> LockMutable(c, w, actor, id) == Success(c.exercises[id])
  {
  }

  /** A review step succeeds exactly for the latest revision of an exercise its actor may change; an
      applied one appends the actor's decision and note to that revision's reviews and changes no
      other revision and no row; a repeated one finds just that review last. */
  lemma ReviewRecords(c: Catalogue, step: Step)
    requires Enabled(step) && step.ReviewStep?
    ensures var id, review := step.id, Review(step.actor.id, step.decision, step.note);
      var repeated := IsLatest(c, id, step.revisionId)
        && LatestReview(c.revisions[id][|c.revisions[id]| - 1].reviews) == Some(review);
      && (Perform(c, step).result.Success? <==>
            MayChange(c, step.w, step.actor, id) && IsLatest(c, id, step.revisionId)
            && (repeated || step.w.constraintsHold))
      && (Applied(c, step) <==> Perform(c, step).result.Success? && !repeated)
    ensures Applied(c, step) ==> ReviewAppended(c, Perform(c, step).catalogue, step.id,
      Review(step.actor.id, step.decision, step.note))
    ensures !Applied(c, step) ==> Perform(c, step).catalogue == c
  {
    MutableExact(c, step.w, step.actor, step.id);
    hide LockMutable, MayChange;
  }

  /** The latest revision of the exercise gained this review, last; nothing else changed. */
  ghost predicate ReviewAppended(c: Catalogue, c': Catalogue, id: nat, review: Review) {
    && c'.exercises == c.exercises && c'.revisions.Keys == c.revisions.Keys
    && (forall other | other in c.revisions && other != id :: c'.revisions[other] == c.revisions[other])
    && id in c.revisions && |c'.revisions[id]| == |c.revisions[id]| > 0
    && var last := |c.revisions[id]| - 1;
       && c'.revisions[id][..last] == c.revisions[id][..last]
       && c'.revisions[id][last] ==
            c.revisions[id][last].(reviews := c.revisions[id][last].reviews + [review])
  }

  /** The revision's last review approves it, its content parses to what was hashed, and the audio a
      listening exercise needs is ready. */
  ghost predicate Publishable(revision: Revision, w: World, parsed: Result<Parsed, Error>) {
    && parsed.Success? && parsed.value.kind != SpeakingRepeat
    && (parsed.value.kind == ListeningChoice ==>
         parsed.value.mediaId.Some? && parsed.value.mediaId.value in w.readyAudio)
    && revision.reviews != [] && revision.reviews[|revision.reviews| - 1].decision == Approved
    && SameUpToKeyOrder(revision.snapshot, parsed.value.written.value)
  }

  /** The exercise is published and shows just this revision and content. */
  ghost predicate Shows(e: Exercise, revision: Revision, value: Content) {
    e.status == Published && e.version == revision.number && SameUpToKeyOrder(e.live, value)
  }

  lemma GateExact(e: Exercise, revisions: seq<Revision>, w: World, revisionId: nat, parsed: Result<Parsed, Error>)
    requires parsed.Success? ==> Faithful(parsed.value.written)
    requires revisions != [] && RevisionSound(revisions[|revisions| - 1], |revisions|) && Printable(e.live)
    ensures var latest, gate := revisions[|revisions| - 1], PublishGate(e, revisions, w, revisionId, parsed);
      && (gate.Success? <==> latest.id == revisionId && Publishable(latest, w, parsed))
      && (gate.Success? ==> gate.value.0 == latest)
      && (gate.Success? ==> (gate.value.1.Idempotent? <==> Shows(e, latest, parsed.value.written.value)))
  {
    if parsed.Success? {
      HashTellsContent(revisions[|revisions| - 1].snapshot, parsed.value.written.value);
      HashTellsContent(e.live, parsed.value.written.value);
      assert Prints(parsed.value.written.value) && Prints(e.live);
      hide SameUpToKeyOrder, HashOf, Printable, Prints;
    }
  }

  /** A publish of sound tables succeeds exactly when its actor may change the exercise, the revision
      is the latest and publishable, and the database accepts the write or none is needed. */
  lemma PublishExact(c: Catalogue, step: Step)
    requires Sound(c) && Enabled(step) && step.PublishStep?
    ensures Perform(c, step).result.Success? <==>
      && MayChange(c, step.w, step.actor, step.id) && IsLatest(c, step.id, step.revisionId)
      && var latest := c.revisions[step.id][|c.revisions[step.id]| - 1];
         && Publishable(latest, step.w, step.parsed)
         && (step.w.constraintsHold || Shows(c.exercises[step.id], latest, step.parsed.value.written.value))
  {
    hide Sound, PublishGate, Publishable, Shows, HashOf, Printable, Prints, RevisionSound, MarkPublished;
    MutableExact(c, step.w, step.actor, step.id);
    hide LockMutable;
    if MayChange(c, step.w, step.actor, step.id) {
      LatestSound(c, step.id);
      GateExact(c.exercises[step.id], c.revisions[step.id], step.w, step.revisionId, step.parsed);
    }
  }

  /** A create succeeds exactly for a valid exercise under a live lesson and topic, and adds one
      draft at version 1 with one unreviewed revision. */
  lemma CreateRecords(c: Catalogue, step: Step)
    requires Enabled(step) && step.CreateStep?
    ensures Perform(c, step).result.Success? <==>
      && step.actor.isAdmin && step.actor.id in step.w.admins && step.authored.Some? && step.w.constraintsHold
      && step.lessonId in step.w.lessons && step.w.lessons[step.lessonId]
      && (step.topicId.Some? ==>
           && step.topicId.value in step.w.topics && step.w.topics[step.topicId.value].lessonId == step.lessonId
           && step.w.topics[step.topicId.value].isLive)
    ensures Applied(c, step) ==>
      var c', id, stored := Perform(c, step).catalogue, c.nextExercise, step.authored.value.stored;
      && (forall other | other in c.exercises && other != id ::
            other in c'.exercises && c'.exercises[other] == c.exercises[other])
      && id in c'.exercises && id in c'.revisions && |c'.revisions[id]| == 1
      && c'.exercises[id].lessonId == step.lessonId && c'.exercises[id].topicId == step.topicId
      && c'.exercises[id].live == stored && c'.exercises[id].version == 1 && c'.exercises[id].status == Draft
      && c'.exercises[id].source == None && c'.exercises[id].createdBy == step.actor.id
      && c'.exercises[id].publishedAt == None && c'.exercises[id].deletedAt == None
      && c'.revisions[id][0].number == 1 && c'.revisions[id][0].snapshot == stored
      && c'.revisions[id][0].authorId == step.actor.id && c'.revisions[id][0].reviews == []
  {
    hide HashOf, Prints;
  }

  /** An applied publish puts the content, its number, the time and the actor into that row alone. */
  lemma PublishRecords(c: Catalogue, step: Step)
    requires Enabled(step) && step.PublishStep? && Applied(c, step)
    ensures var c', id := Perform(c, step).catalogue, step.id;
      && id in c.exercises && id in c'.exercises && c'.revisions == c.revisions
      && (forall other | other != id ::
           (other in c'.exercises <==> other in c.exercises)
           && (other in c.exercises ==> c'.exercises[other] == c.exercises[other]))
      && step.parsed.Success? && c'.exercises[id].live == step.parsed.value.written.stored
      && c'.exercises[id].status == Published && c'.exercises[id].deletedAt == None
      && c'.exercises[id].publishedAt == Some(step.now) && c'.exercises[id].publishedBy == Some(step.actor.id)
      && c'.exercises[id].updatedBy == step.actor.id
      && c'.exercises[id].createdBy == c.exercises[id].createdBy && c'.exercises[id].source == c.exercises[id].source
      && c'.exercises[id].lessonId == c.exercises[id].lessonId && c'.exercises[id].topicId == c.exercises[id].topicId
  {
    hide HashOf, Prints;
  }

  /** An archive succeeds exactly for an exercise whose lesson exists and whose topic belongs to it;
      an applied one retires that row alone and keeps what it showed. */
  lemma ArchiveRecords(c: Catalogue, step: Step)
    requires Enabled(step) && step.ArchiveStep?
    ensures var id, w := step.id, step.w;
      var retired := id in c.exercises && (c.exercises[id].status == Archived || c.exercises[id].deletedAt.Some?);
      && (Perform(c, step).result.Success? <==>
           && step.actor.isAdmin && step.actor.id in w.admins && id in c.exercises
           && c.exercises[id].lessonId in w.lessons
           && (c.exercises[id].topicId.Some? ==>
                && c.exercises[id].topicId.value in w.topics
                && w.topics[c.exercises[id].topicId.value].lessonId == c.exercises[id].lessonId)
           && (retired || w.constraintsHold))
      && (Applied(c, step) <==> Perform(c, step).result.Success? && !retired)
    ensures Applied(c, step) ==> Retired(c, Perform(c, step).catalogue, step.id, step.actor.id, step.now)
    ensures !Applied(c, step) ==> Perform(c, step).catalogue == c
  {
  }

  ghost predicate Retired(c: Catalogue, c': Catalogue, id: nat, actorId: nat, now: int) {
    && id in c.exercises && id in c'.exercises && c'.revisions == c.revisions
    && (forall other | other != id ::
         (other in c'.exercises <==> other in c.exercises)
         && (other in c.exercises ==> c'.exercises[other] == c.exercises[other]))
    && c.exercises[id].status != Archived && c'.exercises[id].status == Archived
    && c'.exercises[id].deletedAt == Some(now) && c'.exercises[id].updatedBy == actorId
    && c'.exercises[id].live == c.exercises[id].live && c'.exercises[id].version == c.exercises[id].version
    && c'.exercises[id].publishedAt == c.exercises[id].publishedAt
    && c'.exercises[id].publishedBy == c.exercises[id].publishedBy
  }

  /** An applied step is audited under its own name. */
  lemma AuditNames(c: Catalogue, step: Step)
    requires Enabled(step) && Applied(c, step)
    ensures var action := if step.CreateStep? then Created else if step.ReviseStep? then RevisionCreated
        else if step.ReviewStep? then Reviewed else if step.PublishStep? then PublishedAction else ArchivedAction;
      Perform(c, step).catalogue.audits
        == c.audits + [Audit(step.actor.id, action, Perform(c, step).result.value.exerciseId)]
  {
    hide HashOf, Prints;
  }

  lemma LatestSound(c: Catalogue, id: nat)
    requires Sound(c) && id in c.exercises
    ensures id in c.revisions && c.revisions[id] != [] && Printable(c.exercises[id].live)
    ensures RevisionSound(c.revisions[id][|c.revisions[id]| - 1], |c.revisions[id]|)
  {
    assert ExerciseSound(c, id);
    hide Printable, HashOf;
  }

  lemma SaysAlreadyExact(revisions: seq<Revision>, value: Content)
    requires revisions != [] && RevisionSound(revisions[|revisions| - 1], |revisions|) && Printable(value)
    ensures SaysAlready(revisions, value)
      == Success(SameUpToKeyOrder(revisions[|revisions| - 1].snapshot, value))
  {
    HashTellsContent(revisions[|revisions| - 1].snapshot, value);
    hide SameUpToKeyOrder, HashOf, WellFormed;
  }

  lemma AppendRecords(c: Catalogue, actorId: nat, id: nat, w: Written)
    requires Sound(c) && id in c.exercises && Prints(w.value)
    ensures id in c.revisions && RevisionAppended(c, AppendRevision(c, actorId, id, w), id, actorId, w.stored)
  {
    LatestNumber(c, id);
    hide Sound, HashOf, Prints;
  }

  /** A revision is appended exactly for changed content of an exercise its actor may change: the
      next number, no reviews, and live at once for a draft. */
  lemma ReviseRecords(c: Catalogue, step: Step)
    requires Sound(c) && Enabled(step) && step.ReviseStep?
    ensures Applied(c, step) <==>
      && MayChange(c, step.w, step.actor, step.id) && step.authored.Some? && step.w.constraintsHold
      && !SameUpToKeyOrder(c.revisions[step.id][|c.revisions[step.id]| - 1].snapshot, step.authored.value.value)
    ensures Applied(c, step) ==> RevisionAppended(c, Perform(c, step).catalogue, step.id, step.actor.id,
      step.authored.value.stored)
  {
    assert step.authored.Some? ==> Prints(step.authored.value.value);
    hide Sound, SameUpToKeyOrder, Printable, SaysAlready, RevisionAppended, AppendRevision, HashOf, Prints;
    hide RevisionSound;
    MutableExact(c, step.w, step.actor, step.id);
    hide LockMutable;
    if MayChange(c, step.w, step.actor, step.id) && step.authored.Some? {
      LatestSound(c, step.id);
      SaysAlreadyExact(c.revisions[step.id], step.authored.value.value);
      AppendRecords(c, step.actor.id, step.id, step.authored.value);
    }
  }

  ghost predicate RevisionAppended(c: Catalogue, c': Catalogue, id: nat, actorId: nat, stored: Content) {
    && id in c.exercises && id in c.revisions && id in c'.exercises && id in c'.revisions
    && (forall other | other in c.revisions && other != id ::
          other in c'.revisions && c'.revisions[other] == c.revisions[other])
    && (forall other | other in c.exercises && other != id ::
          other in c'.exercises && c'.exercises[other] == c.exercises[other])
    && var n := |c.revisions[id]|;
       && |c'.revisions[id]| == n + 1 && c'.revisions[id][..n] == c.revisions[id]
       && c'.revisions[id][n].number == n + 1 && c'.revisions[id][n].snapshot == stored
       && c'.revisions[id][n].authorId == actorId && c'.revisions[id][n].reviews == []
       && (if c.exercises[id].status == Draft
           then c'.exercises[id].live == stored && c'.exercises[id].version == n + 1 && c'.exercises[id].status == Draft
           else c'.exercises[id] == c.exercises[id])
  }

  // ----- Every review was given -----

  /** The step is the review of that revision, and it took effect. */
  ghost predicate Gives(c: Catalogue, step: Step, id: nat, revisionId: nat, review: Review)
    requires Enabled(step)
  {
    && step.ReviewStep? && step.id == id && step.revisionId == revisionId && Applied(c, step)
    && review.reviewerId == step.actor.id && review.decision == step.decision && review.note == step.note
  }

  /** Somewhere in the run that review was given. */
  ghost predicate GivenIn(s: Import.Store, steps: seq<Import.Step>, id: nat, revisionId: nat, review: Review)
    decreases |steps|
  {
    steps != [] && Import.StepEnabled(steps[0])
    && ((steps[0].AuthorStep? && Gives(s.catalogue, steps[0].step, id, revisionId, review))
        || GivenIn(Import.Next(s, steps[0]), steps[1..], id, revisionId, review))
  }

  /** Review k of revision i of the exercise. */
  ghost predicate HasReview(c: Catalogue, id: nat, i: nat, k: nat, review: Review) {
    id in c.revisions && i < |c.revisions[id]| && k < |c.revisions[id][i].reviews|
    && c.revisions[id][i].reviews[k] == review
  }

  lemma ReviewComesFrom(c: Catalogue, step: Step, id: nat, i: nat, k: nat, review: Review)
    requires Enabled(step) && HasReview(Perform(c, step).catalogue, id, i, k, review)
    ensures HasReview(c, id, i, k, review)
      || Gives(c, step, id, Perform(c, step).catalogue.revisions[id][i].id, review)
  {
    if step.ReviewStep? {
      ReviewRecords(c, step);
      hide Perform;
      if Applied(c, step) && id == step.id {
        var c' := Perform(c, step).catalogue;
        var last := |c.revisions[id]| - 1;
        if i < last { assert c'.revisions[id][..last][i] == c.revisions[id][..last][i]; }
      }
    } else {
      hide HashOf, Prints, MayChange;
    }
  }

  lemma InsertedUnreviewed(c: Catalogue, actorId: nat, dataSourceId: nat, rows: seq<Import.Row>, c': Catalogue, id: nat)
    requires Import.InsertedAfter(c, actorId, dataSourceId, rows, c') && id in c'.exercises && id !in c.exercises
    ensures id in c'.revisions && |c'.revisions[id]| == 1 && c'.revisions[id][0].reviews == []
  {
    hide HashOf, Prints;
    var n := id - c.nextExercise;
    assert Import.RowInserted(c', actorId, dataSourceId, rows[n], c.nextExercise + n);
  }

  lemma InsertedAreUnreviewed(c: Catalogue, actorId: nat, dataSourceId: nat, rows: seq<Import.Row>, c': Catalogue,
      id: nat, i: nat, k: nat, review: Review)
    requires Import.InsertedAfter(c, actorId, dataSourceId, rows, c') && c.exercises.Keys == c.revisions.Keys
    requires c'.exercises.Keys == c'.revisions.Keys && HasReview(c', id, i, k, review)
    ensures HasReview(c, id, i, k, review)
  {
    hide Import.RowInserted;
    if id !in c.exercises { InsertedUnreviewed(c, actorId, dataSourceId, rows, c', id); }
  }

  lemma ImportAddsNoReview(s: Import.Store, step: Import.Step, id: nat, i: nat, k: nat, review: Review)
    requires Import.StoreSound(s) && Import.StepEnabled(step) && step.ImportStep?
    requires HasReview(Import.Next(s, step).catalogue, id, i, k, review)
    ensures HasReview(s.catalogue, id, i, k, review)
  {
    Import.CommitAllOrNothing(s, step.w, step.actor, step.p, step.previewHash, step.key, step.now);
    Import.StepKeepsStore(s, step);
    Import.SoundKeys(s.catalogue);
    Import.SoundKeys(Import.Next(s, step).catalogue);
    hide Sound, CatalogueEvolves, HasReview, Import.Commit, Import.SameRequest, Import.Complete, Import.PayloadPrints;
    hide Import.InsertedAfter, Import.PayloadFaithful, Import.StoreSound, Import.Normalised;
    if Import.Next(s, step) != s {
      InsertedAreUnreviewed(s.catalogue, step.actor.id, step.p.dataSourceId, Import.Normalised(step.p.rows),
                            Import.Next(s, step).catalogue, id, i, k, review);
    }
  }

  /** Over every run of authoring and imports: a review found at the end was there at the start or
      was given in the run, to that revision, with that decision. */
  lemma {:induction false} EveryReviewWasGiven(s: Import.Store, steps: seq<Import.Step>, s': Import.Store,
      id: nat, i: nat, k: nat, review: Review)
    requires Import.StoreSound(s) && Import.Run(s, steps, s') && HasReview(s'.catalogue, id, i, k, review)
    ensures HasReview(s.catalogue, id, i, k, review)
      || GivenIn(s, steps, id, s'.catalogue.revisions[id][i].id, review)
    decreases |steps|
  {
    hide Import.StoreSound, Import.Next, Import.StepEnabled, CatalogueEvolves, Gives;
    if steps != [] {
      var next := Import.Next(s, steps[0]);
      Import.StepKeepsStore(s, steps[0]);
      EveryReviewWasGiven(next, steps[1..], s', id, i, k, review);
      if HasReview(next.catalogue, id, i, k, review) {
        Import.RunKeepsStore(next, steps[1..], s');
        SameRevision(next, s', id, i);
        StepReview(s, steps[0], id, i, k, review);
      }
    }
  }

  lemma SameRevision(s: Import.Store, s': Import.Store, id: nat, i: nat)
    requires Import.StoreSound(s) && CatalogueEvolves(s.catalogue, s'.catalogue)
    requires id in s.catalogue.revisions && i < |s.catalogue.revisions[id]|
    ensures id in s'.catalogue.revisions && i < |s'.catalogue.revisions[id]|
    ensures s'.catalogue.revisions[id][i].id == s.catalogue.revisions[id][i].id
  {
    Import.SoundKeys(s.catalogue);
    hide Sound, Import.StoreSound;
    assert RevisionGrows(s.catalogue.revisions[id][i], s'.catalogue.revisions[id][i]);
  }

  lemma StepReview(s: Import.Store, step: Import.Step, id: nat, i: nat, k: nat, review: Review)
    requires Import.StoreSound(s) && Import.StepEnabled(step)
    requires HasReview(Import.Next(s, step).catalogue, id, i, k, review)
    ensures HasReview(s.catalogue, id, i, k, review)
      || (step.AuthorStep?
          && Gives(s.catalogue, step.step, id, Import.Next(s, step).catalogue.revisions[id][i].id, review))
  {
    hide Import.StoreSound, HasReview, Gives, Import.Commit, Perform;
    match step
    case AuthorStep(inner) => ReviewComesFrom(s.catalogue, inner, id, i, k, review);
    case ImportStep(_, _, _, _, _, _) => ImportAddsNoReview(s, step, id, i, k, review);
  }

  /** Over every run from empty tables: a published exercise shows a revision that some step of the
      run approved. */
  lemma PublishedWasApproved(s: Import.Store, steps: seq<Import.Step>, s': Import.Store, id: nat)
    requires s.catalogue.exercises == map[] && s.catalogue.revisions == map[] && s.catalogue.audits == []
    requires s.jobs == map[] && Import.Run(s, steps, s')
    requires id in s'.catalogue.exercises && s'.catalogue.exercises[id].status == Published
    ensures id in s'.catalogue.revisions
    ensures var e := s'.catalogue.exercises[id];
      && 1 <= e.version <= |s'.catalogue.revisions[id]|
      && var shown := s'.catalogue.revisions[id][e.version - 1];
         && SameUpToKeyOrder(e.live, shown.snapshot)
         && exists review: Review :: review.decision == Approved && GivenIn(s, steps, id, shown.id, review)
  {
    hide Import.Run, CatalogueEvolves, SameUpToKeyOrder, GivenIn, Sound;
    Import.EmptyStoreSound(s);
    Import.RunKeepsStore(s, steps, s');
    ShownRevision(s'.catalogue, id);
    ShownIsApproved(s'.catalogue, id);
    hide Import.StoreSound;
    var i := s'.catalogue.exercises[id].version - 1;
    var revision := s'.catalogue.revisions[id][i];
    var k :| 0 <= k < |revision.reviews| && revision.reviews[k].decision.Approved?;
    EveryReviewWasGiven(s, steps, s', id, i, k, revision.reviews[k]);
  }

  lemma ShownIsApproved(c: Catalogue, id: nat)
    requires Sound(c) && id in c.exercises && c.exercises[id].status == Published
    ensures id in c.revisions && 1 <= c.exercises[id].version <= |c.revisions[id]|
    ensures ApprovedOnce(c.revisions[id][c.exercises[id].version - 1])
  {
    assert ExerciseSound(c, id);
    hide Printable, HashOf, RevisionsSound;
  }
}
