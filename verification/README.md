# Verified behaviour of the learning platform

This project models the algorithms and state machines inside the platform's NestJS backend and
Next.js frontend and proves properties of them over every input or every run. The modules, by
component:

- `RepeatedPattern`, `Base64`, `Base64Bits`: checks on secret material. The prefix table is built
  in place in an array; base64 is modelled down to sextets and bits.
- `JsonValues`, `Canonical`, `CanonicalRoundTrip`, `CanonicalSpelling`, `DepthGuards`,
  `PayloadBounds`: canonical JSON with sorted keys, its grammar, a parser that reads it back, and
  the four depth computations.
- `AnswerValidation`: choice and arrangement answers of authored exercises.
- `LockOrder`: the row locks of content transactions as a transition system.
- `ExerciseAuthoring`, `ReviewHistory`, `ExerciseImport`, `ImportHashes`: exercises through draft,
  published and archived, where their reviews come from, and all-or-nothing imports replayed by
  Idempotency-Key.
- `LoginLockout`, `RateLimit`, `RateLimitAnswers`, `Sessions`, `SessionRows`: the single-UPDATE
  login claim, the shared fixed-window counter and its answers, refresh-token rotation with reuse
  detection.
- `SingleFlight`, `Cookies`, `CookieUpdates`: the frontend's shared refresh and its cookie header.
- `MediaRequests`, `MediaLabels`, `DatabaseSnapshot`, `SnapshotAnswers`: in-flight metrics,
  histograms, and the single-flight database snapshot with its timeout and stale cache.
- `MigrationResolve`: marking a failed migration as rolled back.
- `Outcomes`, `Primitives`, `Sequences`, `Spans`: shared vocabulary.

## How it is modelled

A component that updates state is a class whose fields are its tables or fields; each method is
proved equal to a function from old to new contents, and the properties are lemmas about those
functions and about runs of them. What the functions compute is told a second time by columns,
clocks and counts alone, without naming them (`CanonicalSpelling`, `ReviewHistory`,
`ImportHashes`, `RateLimitAnswers`, `SessionRows`, `CookieUpdates`, `MediaLabels`,
`SnapshotAnswers`). One SQL statement, or one transaction that takes its row locks first, is one
atomic step. In `Sessions`, where locks come late, transactions are split into their statements:
row locks are explicit, a statement whose row is locked waits, uncommitted changes are invisible,
and an UPDATE over all of a user's sessions works through the rows of its snapshot one by one.
Deletion requests stay one step: they lock the User row FOR UPDATE, which no insert of a session
passes, and wait for every locked session row. The ten-second grace is measured from the rotation
time the row stores. Time is an integer that does not decrease along a run; the lockout and the
rate limit read it in microseconds and store it in milliseconds, as their columns do. SHA-256 is
an injective wrapper of the text it digests. A number is the token JavaScript prints for it.
Unicode normalisation, trimming and identifier patterns are parameters. Calls that can fail in
several ways (the database, file reads, COMMIT, disconnect, timers, abort signals) are inputs of
the step, so the theorems hold for every combination of them.

Content written to a `jsonb` column may come back with its keys in another order; `Written` carries
both values, and hashes agree through the injectivity theorem of canonical JSON.

## What the proofs found

- The bounded JSON payload documents 20 levels (bounded-json-payload.validator.ts:24-26), but it
  prints the value with the default depth bound 16 of canonical JSON, so values 17 to 20 levels deep
  are rejected. `PayloadBounds.ValidateExact` gives the exact condition and
  `PayloadBounds.DocumentedDepthRejected` a value.
- The metrics service on its own accepts a cache TTL longer than the stale TTL, and then serves
  cached snapshots older than the stale TTL. `DatabaseSnapshot.StaleBoundExact` gives the exact
  condition; environment validation (env.validation.ts:223-228) only admits configurations that
  meet it.
- A block shorter than ttl lets a span of length ttl exceed twice the limit (for a limit of one, a
  block of at most half of ttl). `RateLimit.SpanBoundExact` gives the exact condition for every
  limit. The login counter, which blocks for as long as its window, meets it.
- The lockout promises five verifications per 15 minutes, but the end of a lock is stored rounded to
  the millisecond, so a sixth can fall up to 499 microseconds early. `LoginLockout.LockoutBoundExact`
  gives the exact span.
- A token reused late, or a password reset, is meant to leave the user no unrevoked session. Under
  READ COMMITTED the revoking UPDATE neither sees nor waits for sessions committed after its
  snapshot, so the successor of a concurrent refresh survives it. `Sessions.SuccessorSurvivesReuse`
  and `Sessions.SuccessorSurvivesReset` give the runs, `Sessions.ReuseEndsExactly` and
  `Sessions.ResetEndsExactly` the exact condition. An account deletion locks the User row first and
  is not affected.
- A migration resolve whose COMMIT is durable but never acknowledged exits non-zero although the
  history changed. `MigrationResolve.MigrationHistory.RunProcess` states that this is the only case
  in which the exit code misleads.
- A metrics handle completed with a label outside the allowed ones is spent without leaving the
  in-flight count. `MediaRequests.Conserved` counts such completions separately; the TypeScript
  types rule them out.

## Model

Rows that open with **Main result.** state the results the others lead up to.

| member | source | states |
|---|---|---|
| `RepeatedPattern.BorderTable` | backend/src/config/runtime-security.ts:301-309 | **Main result.** The in-place prefix loop leaves at every index the length of the longest proper border of that prefix, and over the whole run its inner `while` body executes at most n - 1 times. |
| `RepeatedPattern.IsRepeatedPattern` | backend/src/config/runtime-security.ts:300-312 | **Main result.** True exactly when the buffer is some shorter block written two or more times. |
| `RepeatedPattern.RepetitionByLeastPeriod` | backend/src/config/runtime-security.ts:310-311 | Being such a repetition is the same as the least period being shorter than the buffer and dividing its length. |
| `RepeatedPattern.LeastPeriodDivides` | backend/src/config/runtime-security.ts:310-311 | Fine and Wilf for dividing periods: the least period divides every period that divides the length. |
| `RepeatedPattern.BorderIsPeriod` | backend/src/config/runtime-security.ts:310-310 | A border of length k and a period of length n - k are the same thing. |
| `RepeatedPattern.NextLongest` | backend/src/config/runtime-security.ts:302-309 | The fall-back walk finds the longest border of the next prefix: no longer border is skipped. |
| `RepeatedPattern.HasLongRepeatedByteRun` | backend/src/config/runtime-security.ts:314-321 | True exactly when eight equal bytes stand next to each other somewhere. |
| `Base64.PackUnpack` | backend/src/config/runtime-security.ts:267-275 | Cutting bytes into sextets and packing them again gives the bytes. |
| `Base64.UnpackPack` | backend/src/config/runtime-security.ts:268-276 | Packing sextets and cutting again gives the sextets exactly when the unused trailing bits are zero. |
| `Base64Bits.UnpackSpellsBits` | backend/src/config/runtime-security.ts:267-275 | The sextets spell the bytes' bits in order, padded with zero bits (sections 3.5 and 4 of RFC 4648). |
| `Base64Bits.SymbolTable` | backend/src/config/runtime-security.ts:259-277 | The symbols are those of tables 1 and 2 of RFC 4648. |
| `Base64.AcceptsCanonicalSpellings` | backend/src/config/runtime-security.ts:259-269 | A string is accepted exactly when it is symbols with zero unused bits and padding that is complete or absent. |
| `Base64.DecodesExactlyEncodings` | backend/src/config/runtime-security.ts:259-269 | **Main result.** `decodeCanonicalBase64` returns b exactly for the padded and the unpadded standard encoding of b. |
| `Base64.UrlDecodesExactlyEncodings` | backend/src/config/runtime-security.ts:271-277 | **Main result.** `decodeCanonicalBase64Url` returns b exactly for the unpadded URL-safe encoding of b. |
| `Base64.SpellingUnique` | backend/src/config/runtime-security.ts:259-269 | Two accepted spellings of the same bytes differ at most in omitted padding. |
| `Base64.DistinctSecretsExact` | backend/src/config/runtime-security.ts:206-210 | The fingerprint set is as large as the list exactly when no two decoded secrets are equal. |
| `Canonical.CanonicalJsonSucceeds` | backend/src/common/utils/canonical-json.ts:16-97 | `canonicalJson` succeeds exactly on finite plain JSON values no deeper than the bound; a JSON value that is deeper fails with the depth error. |
| `Canonical.SerializeSucceeds` | backend/src/common/utils/canonical-json.ts:37-97 | The same for every recursive call and remaining depth. |
| `CanonicalRoundTrip.CanonicalJsonReadsBack` | backend/src/common/utils/canonical-json.ts:16-103 | **Main result.** A JSON parser reads the output back to the key-sorted value, with nothing left over (sections 4, 5 and 7 of RFC 8259). |
| `CanonicalRoundTrip.CanonicalJsonInjective` | backend/src/common/utils/canonical-json.ts:16-103 | **Main result.** Two values print alike exactly when they are the same JSON value up to object key order (section 3.2.3 of RFC 8785). |
| `CanonicalRoundTrip.ValueReadsBack` | backend/src/common/utils/canonical-json.ts:37-91 | The parser undoes the printer in front of any following text, at every depth. |
| `CanonicalRoundTrip.NormalExact` | backend/src/common/utils/canonical-json.ts:74-75 | Two values have the same key-sorted form exactly when they are equal up to key order. |
| `CanonicalRoundTrip.CharsReadBack` | backend/src/common/utils/canonical-json.ts:44-45 | Escaping a string of UTF-16 code units, lone surrogates included, is undone by unescaping. |
| `CanonicalSpelling.CanonicalJsonSpells` | backend/src/common/utils/canonical-json.ts:16-103 | **Main result.** Whatever is printed is the spelling that section 3.2 of RFC 8785 and QuoteJSONString of ECMA-262 prescribe: literals, escapes, surrogate pairs, commas, and every field once in ascending UTF-16 order. |
| `CanonicalSpelling.ReaderFindsKeysAscending` | backend/src/common/utils/canonical-json.ts:74-91 | A JSON parser finds in the text the same value, and at every depth the keys in ascending UTF-16 order. |
| `CanonicalSpelling.QuoteExact` | backend/src/common/utils/canonical-json.ts:44-45 | A string prints as its units: the seven short escapes, lower-case hexadecimal for other controls and lone surrogates, everything else as it is. |
| `CanonicalSpelling.FaultsNamed` | backend/src/common/utils/canonical-json.ts:16-97 | Which error a bad depth, a non-finite number, a class instance and an unsupported value give. |
| `JsonValues.SortSorts` | backend/src/common/utils/canonical-json.ts:75-75 | Sorting by UTF-16 code units gives a strictly sorted list of the same fields. |
| `JsonValues.SortedUnique` | backend/src/common/utils/canonical-json.ts:75-75 | A set of fields with distinct keys has only one sorted order. |
| `JsonValues.LessTotal` | backend/src/common/utils/canonical-json.ts:99-103 | The code-unit comparison is a strict total order on strings. |
| `JsonValues.LessExact` | backend/src/common/utils/canonical-json.ts:99-103 | The comparison is the UTF-16 order: a proper prefix comes first, otherwise the first different code unit decides. |
| `DepthGuards.JsonDepthExact` | backend/src/modules/cms/dto/bounded-json-payload.validator.ts:35-43 | `jsonDepth` is at least d exactly when a chain of d nested containers exists. |
| `DepthGuards.BoundedJsonDepth` | backend/src/common/validation/lesson-exercise-authoring.validator.ts:303-318 | `boundedJsonDepth` is the smaller of the depth and one more than the remaining bound. |
| `DepthGuards.ExceedsJsonDepth` | backend/src/common/middleware/json-body-depth.middleware.ts:21-36 | **Main result.** On every JSON value the explicit-stack worklist terminates and answers whether the depth exceeds the bound. |
| `Canonical.DepthGuardsAgree` | backend/src/common/utils/canonical-json.ts:57-97 | **Main result.** For every JSON value and limit of at least 1 the worklist, the recursive depth, the saturating depth and the canonical printer's depth error agree, and object exactly when more than the limit of containers are nested inside one another. |
| `PayloadBounds.ValidateExact` | backend/src/modules/cms/dto/bounded-json-payload.validator.ts:13-22 | A payload is accepted exactly when it is within the documented bounds and at most 16 levels deep. |
| `PayloadBounds.DocumentedDepthRejected` | backend/src/modules/cms/dto/bounded-json-payload.validator.ts:24-26 | A value 17 levels deep, inside the documented bounds, is rejected. |
| `PayloadBounds.Utf8Exact` | backend/src/modules/cms/dto/bounded-json-payload.validator.ts:13-22 | Byte lengths are those of UTF-8: one to three bytes for a unit, four for a surrogate pair, and additive. |
| `AnswerValidation.ValidateArrange` | backend/src/common/validation/lesson-exercise-authoring.validator.ts:208-251 | Computes the specified first problem or canonical arrangement; its three cheap comparisons decide the permutation test. |
| `AnswerValidation.ValidateChoice` | backend/src/common/validation/lesson-exercise-authoring.validator.ts:139-170 | Computes the specified first problem or canonical choice. |
| `AnswerValidation.CanonicalItems` | backend/src/common/validation/lesson-exercise-authoring.validator.ts:146-157 | The map callback reports the first problem in reading order, or the canonical items and the set of their ids. |
| `AnswerValidation.PermutationTest` | backend/src/common/validation/lesson-exercise-authoring.validator.ts:233-241 | Equal length, no repeated answer id and no foreign one hold together exactly when the answer is a permutation of the ids. |
| `AnswerValidation.ArrangementExact` | backend/src/common/validation/lesson-exercise-authoring.validator.ts:208-251 | **Main result.** Accepted exactly when tokens have valid, distinct ids and texts and the answer lists every token id once, in some order. |
| `AnswerValidation.ChoiceExact` | backend/src/common/validation/lesson-exercise-authoring.validator.ts:139-170 | Accepted exactly when options have valid, distinct ids and texts and the answer names one of them. |
| `AnswerValidation.ItemsExact` | backend/src/common/validation/lesson-exercise-authoring.validator.ts:146-157 | Items are accepted exactly when each is a plain record of a valid id and text and no two ids agree after normalisation. |
| `AnswerValidation.ArrangementRevalidates` | backend/src/common/validation/lesson-exercise-authoring.validator.ts:208-251 | **Main result.** What the validator stores for an arrangement is accepted again unchanged. |
| `AnswerValidation.ChoiceRevalidates` | backend/src/common/validation/lesson-exercise-authoring.validator.ts:139-170 | What the validator stores for a choice is accepted again unchanged. |
| `AnswerValidation.FirstProblem` | backend/src/common/validation/lesson-exercise-authoring.validator.ts:146-157 | The problem reported for a list of items is that of its first bad item: shape, then id, then repetition, then text. |
| `AnswerValidation.ChoiceProblem` | backend/src/common/validation/lesson-exercise-authoring.validator.ts:139-170 | A choice is refused for its content first, then for its answer, each with its own code and path. |
| `AnswerValidation.ArrangementProblem` | backend/src/common/validation/lesson-exercise-authoring.validator.ts:208-251 | The same for an arrangement. |
| `LockOrder.LocksAscend` | backend/src/modules/cms/exercise-authoring.service.ts:534-634 | **Main result.** Every lesson, topic, exercise, import and media-lifecycle operation takes its row locks in strictly ascending class-then-id order and never the same row twice. |
| `LockOrder.SortDistinctExact` | backend/src/modules/cms/exercise-import/exercise-import.service.ts:476-506 | The deduplicated, sorted parent ids are strictly ascending and the same set of ids. |
| `LockOrder.LocksExact` | backend/src/modules/cms/exercise-authoring.service.ts:534-634 | Every operation locks exactly the rows it works on: its actor and audio shared, all else for update. |
| `LockOrder.MutualExclusion` | backend/src/modules/cms/cms.service.ts:842-860 | In every reachable state two transactions never hold incompatible locks on one row. |
| `LockOrder.WaitsForLater` | backend/src/modules/cms/cms.service.ts:862-875 | A transaction waiting for another waiting one waits for a strictly earlier lock than that one does. |
| `LockOrder.NoDeadlock` | backend/src/modules/cms/cms.service.ts:842-875 | **Main result.** No set of concurrent transactions, whatever they run, ever reaches a waits-for cycle. |
| `LockOrder.SomeoneCanStep` | backend/src/modules/cms/exercise-import/exercise-import.service.ts:117-122 | While some transaction is unfinished, some transaction can take a step. |
| `LockOrder.AllCanFinish` | backend/src/modules/cms/media-admin.service.ts:179-182 | **Main result.** From every reachable state there is a run in which every transaction finishes. |
| `LockOrder.StepsRunOut` | backend/src/modules/cms/cms-actor-lock.ts:4-14 | Every step uses up work, so no run takes steps for ever. |
| `ExerciseAuthoring.HashTellsContent` | backend/src/common/utils/canonical-json.ts:28-35 | Content hashes agree exactly when the contents are the same JSON value up to key order. |
| `ExerciseAuthoring.ExerciseAuthoringService.CreateExercise` | backend/src/modules/cms/exercise-authoring.service.ts:197-250 | Does exactly the create step: same checks in the same order, draft row at version 1, revision 1 and one audit record. |
| `ExerciseAuthoring.ExerciseAuthoringService.InsertDraft` | backend/src/modules/cms/exercise-authoring.service.ts:215-239 | The two inserts leave exactly the draft and its first revision, as `AddExercise` says. |
| `ExerciseAuthoring.ExerciseAuthoringService.CreateExerciseRevision` | backend/src/modules/cms/exercise-authoring.service.ts:252-328 | Does exactly the revise step, comparing by hash and then by canonical text and taking drafts live at once. |
| `ExerciseAuthoring.ExerciseAuthoringService.ReviewExerciseRevision` | backend/src/modules/cms/exercise-authoring.service.ts:330-398 | Does exactly the review step on the latest revision. |
| `ExerciseAuthoring.ExerciseAuthoringService.PublishExerciseRevision` | backend/src/modules/cms/exercise-authoring.service.ts:400-487 | Does exactly the publish step behind its gate. |
| `ExerciseAuthoring.ExerciseAuthoringService.ArchiveExercise` | backend/src/modules/cms/exercise-authoring.service.ts:489-532 | Does exactly the archive step. |
| `ExerciseAuthoring.ExerciseAuthoringService.LockMutableExercise` | backend/src/modules/cms/exercise-authoring.service.ts:534-583 | Reports the first failing guard of the lock hierarchy, the archive state and parent coherence. |
| `ExerciseAuthoring.StepKeepsSound` | backend/src/modules/cms/exercise-authoring.service.ts:197-532 | **Main result.** Every step keeps revision numbers 1..n, stored hashes that match, a live row showing revision `version`, drafts showing the latest and published rows an approved revision; versions never decrease, revisions and reviews are only appended, archived rows never change. |
| `ExerciseAuthoring.PublishedContentIsStable` | backend/src/modules/cms/exercise-authoring.service.ts:400-487 | In each authoring step only a publish of the exercise changes what a published exercise shows, and only an archive retires it. |
| `ExerciseAuthoring.PublishShowsLatest` | backend/src/modules/cms/cms-workflow.ts:16-43 | **Main result.** After a successful publish the row shows the latest revision, and that revision's latest review approves it. |
| `ExerciseAuthoring.ShownRevision` | backend/src/modules/cms/exercise-authoring.service.ts:917-928 | The live content is the snapshot of revision `version`, up to key order. |
| `ExerciseAuthoring.PublishedShowsApproved` | backend/src/modules/cms/exercise-authoring.service.ts:439-456 | A published exercise always shows a revision that a review approved. |
| `ExerciseAuthoring.RepeatChangesNothing` | backend/src/modules/cms/exercise-authoring.service.ts:272-281 | Repeating a successful revise, review, publish or archive succeeds and changes nothing. |
| `ExerciseAuthoring.AuditTrail` | backend/src/modules/cms/exercise-authoring.service.ts:739-770 | A failed or idempotent step changes nothing; an applied one adds exactly one audit record naming its actor and exercise. |
| `ExerciseAuthoring.EvolvesTrans` | backend/src/modules/cms/exercise-authoring.service.ts:934-939 | What one exercise may become is transitive, so the step guarantees hold over whole runs. |
| `ReviewHistory.ReviewRecords` | backend/src/modules/cms/exercise-authoring.service.ts:330-398 | A review succeeds exactly for the latest revision of an exercise its actor may change; an applied one appends the actor, the decision and the note to that revision and changes nothing else. |
| `ReviewHistory.EveryReviewWasGiven` | backend/src/modules/cms/exercise-authoring.service.ts:361-377 | **Main result.** Over every run of authoring and imports a review in the tables was there at the start or was given in the run, to that revision, with that decision. |
| `ReviewHistory.PublishedWasApproved` | backend/src/modules/cms/exercise-authoring.service.ts:439-456 | **Main result.** Over every run from empty tables a published exercise shows a revision that an applied review step of the run approved. |
| `ReviewHistory.PublishExact` | backend/src/modules/cms/exercise-authoring.service.ts:400-487 | **Main result.** A publish succeeds exactly when its actor may change the exercise, the revision is the latest, parses to what was hashed, has its audio and is approved by its last review, and the write is accepted or not needed. |
| `ReviewHistory.PublishRecords` | backend/src/modules/cms/exercise-authoring.service.ts:458-478 | An applied publish puts content, time and actor into that row and changes no other row and no revision. |
| `ReviewHistory.ReviseRecords` | backend/src/modules/cms/exercise-authoring.service.ts:252-328 | A revision is appended exactly when the content differs from the latest one beyond key order, with the next number and no reviews; a draft takes it live. |
| `ReviewHistory.CreateRecords` | backend/src/modules/cms/exercise-authoring.service.ts:197-250 | A create succeeds exactly under a live lesson and topic and adds one draft with one unreviewed revision. |
| `ReviewHistory.ArchiveRecords` | backend/src/modules/cms/exercise-authoring.service.ts:489-532 | An archive succeeds exactly for an exercise whose lesson exists and owns its topic, retires that row alone and keeps what it showed. |
| `ReviewHistory.AuditNames` | backend/src/modules/cms/exercise-authoring.service.ts:739-770 | An applied step is audited under its own name, with its actor and its exercise. |
| `ExerciseImport.ValidateExerciseImportRows` | backend/src/modules/cms/exercise-import/lesson-exercise-import.ts:60-143 | Keeps exactly the valid rows whose source key occurs once, in order. |
| `ExerciseImport.NormalisedKeysDistinct` | backend/src/modules/cms/exercise-import/lesson-exercise-import.ts:103-125 | Rows that survive validation have pairwise distinct source keys. |
| `ExerciseImport.ExerciseImportService.CommitImport` | backend/src/modules/cms/exercise-import/exercise-import.service.ts:92-329 | Does exactly the specified commit, fresh or replayed, including the order of the checks. |
| `ExerciseImport.ExerciseImportService.InsertAll` | backend/src/modules/cms/exercise-import/exercise-import.service.ts:254-291 | The insertion loop adds one draft per row in order, or rolls everything back. |
| `ExerciseImport.ExerciseImportService.PrepareImport` | backend/src/modules/cms/exercise-import/exercise-import.service.ts:331-445 | Answers whether every row has live parents, known media and an unused source key. |
| `ExerciseImport.ExerciseImportService.FindExercisesBySourceKeys` | backend/src/modules/cms/exercise-import/exercise-import.service.ts:447-470 | Finds the exercises of the keys in the keys' order, or nothing when one is missing. |
| `ExerciseImport.ExerciseImportService.ReplayCommit` | backend/src/modules/cms/exercise-import/exercise-import.service.ts:137-215 | Does exactly the specified replay checks. |
| `ExerciseImport.CommitAllOrNothing` | backend/src/modules/cms/exercise-import/exercise-import.service.ts:217-320 | **Main result.** A fresh commit either changes nothing, or every row of the file becomes a draft at version 1 with one revision, existing rows are untouched, and exactly one job and one audit record are added. |
| `ExerciseImport.InsertExact` | backend/src/modules/cms/exercise-import/exercise-import.service.ts:254-291 | The loop's effect row by row, with the invariant and existing exercises kept. |
| `ExerciseImport.InsertKeepsUnique` | backend/src/modules/cms/exercise-import/exercise-import.service.ts:383-403 | An import never gives two exercises the same data source and source key. |
| `ExerciseImport.ReplayReturnsSame` | backend/src/modules/cms/exercise-import/exercise-import.service.ts:129-215 | **Main result.** After a committed import and any further authoring and import steps, the same actor repeating the same payload and key gets the same job and the same exercise ids in the same order, and nothing changes. |
| `ExerciseImport.RunKeepsStore` | backend/src/modules/cms/exercise-import/exercise-import.service.ts:92-329 | **Main result.** In every run of create, import, revise, review, publish and archive the invariant holds at the end and rows only evolve as allowed. |
| `ExerciseImport.PublishedContentChangesOnlyByPublish` | backend/src/modules/cms/exercise-authoring.service.ts:400-532 | **Main result.** Over every run of authoring and imports, the content or version of a published exercise differs at the end only if the run holds a publish of it that took effect, and it stops being published only if the run archived it. |
| `ExerciseImport.EmptyStoreSound` | backend/src/modules/cms/exercise-import/exercise-import.service.ts:92-329 | Empty tables meet the invariant, so every run that starts with them keeps it. |
| `ExerciseImport.StepKeepsJob` | backend/src/modules/cms/exercise-import/exercise-import.service.ts:224-252 | No later step changes a job or writes another completion record for it. |
| `ExerciseImport.RecordedReplays` | backend/src/modules/cms/exercise-import/exercise-import.service.ts:150-206 | The traces an import leaves are exactly enough for the replay checks to pass. |
| `ImportHashes.HashTellsPayload` | backend/src/modules/cms/exercise-import/lesson-exercise-import.ts:145-166 | **Main result.** Preview hashes agree exactly when data source, file name, errors and the kept rows agree, contents up to key order. |
| `ImportHashes.UsedKeyConflicts` | backend/src/modules/cms/exercise-import/exercise-import.service.ts:129-149 | **Main result.** Once an import is committed under a key, no other payload and nobody else is accepted under it after any run: the commit conflicts and changes nothing. |
| `ImportHashes.ForeignPreviewConflicts` | backend/src/modules/cms/exercise-import/exercise-import.service.ts:100-105 | A commit under the preview hash of another payload conflicts and changes nothing. |
| `ImportHashes.FreshExact` | backend/src/modules/cms/exercise-import/exercise-import.service.ts:92-329 | Under an unused key an import is committed exactly when actor, hash and source are in order, no row is refused and every row fits the tables. |
| `ImportHashes.RowsSplit` | backend/src/modules/cms/exercise-import/lesson-exercise-import.ts:60-143 | Every row is kept or refused with its own numbered error, both in file order; kept are exactly the valid rows whose source key no other valid row has. |
| `LoginLockout.UserRow.ReserveLoginAttempt` | backend/src/modules/auth/auth.service.ts:271-292 | The single UPDATE, by the microsecond clock, claims exactly when no stored lock is in force and leaves the specified counter and the lock end rounded to milliseconds. |
| `LoginLockout.UserRow.ResetAfterSuccess` | backend/src/modules/auth/auth.service.ts:222-229 | A successful login clears the counter and the lock. |
| `LoginLockout.AtMostFivePerLockout` | backend/src/modules/auth/auth.service.ts:262-292 | From any row state, with no successful login in between, every half-open span up to 499 microseconds short of 15 minutes grants at most five verifications. |
| `LoginLockout.FiveAreGranted` | backend/src/modules/auth/auth.service.ts:262-292 | Five attempts at once on a fresh row are all granted, so the bound is reached. |
| `LoginLockout.SixInAFullSpan` | backend/src/modules/auth/auth.service.ts:278-288 | A run that grants six verifications within any longer span, a full 15 minutes included: five at the worst moment of a millisecond and one when the stored lock ends. |
| `LoginLockout.LockoutBoundExact` | backend/src/modules/auth/auth.service.ts:262-292 | **Main result.** At most five verifications in every span of a length, for all rows and runs, exactly when the length stays 499 microseconds short of 15 minutes. |
| `LoginLockout.AttemptHistory` | backend/src/modules/auth/auth.service.ts:274-285 | The counter covers the grants since the last lock, and grants after a lock wait for its stored end. |
| `LoginLockout.FailuresCounted` | backend/src/modules/auth/auth.service.ts:274-288 | From a row without a count or with an ended lock, up to five failures are granted and counted from one, and the fifth locks for fifteen minutes. |
| `LoginLockout.LockedOut` | backend/src/modules/auth/auth.service.ts:287-289 | Until the lock ends nothing is granted and nothing counted. |
| `RateLimit.PostgresThrottlerStorage.Increment` | backend/src/infrastructure/rate-limit/postgres-throttler.storage.ts:57-103 | Upserts the specified counter, touches no other key and returns hits, block flag and expiry; invalid limits change nothing. |
| `RateLimit.PostgresThrottlerStorage.Reset` | backend/src/infrastructure/rate-limit/postgres-throttler.storage.ts:106-110 | Removes exactly that key's counter. |
| `RateLimit.PostgresThrottlerStorage.PurgeExpired` | backend/src/infrastructure/rate-limit/postgres-throttler.storage.ts:116-132 | Removes only counters expired at some batch's clock, counts them, and stops early only at a short batch. Its batches run back to back here; `RateLimit.PurgesInvisible` lets increments fall between any of them. |
| `RateLimit.PostgresThrottlerStorage.DeleteBatch` | backend/src/infrastructure/rate-limit/postgres-throttler.storage.ts:119-127 | One statement deletes at most a batch of expired, unlocked counters, fewer only when none are left. |
| `RateLimit.PointsBounded` | backend/src/infrastructure/rate-limit/postgres-throttler.storage.ts:76-80 | Points never exceed limit + 1. |
| `RateLimit.WindowAllowsLimit` | backend/src/infrastructure/rate-limit/postgres-throttler.storage.ts:96-102 | Each window lets at most `limit` hits through unblocked. |
| `RateLimit.SpanAllowsTwiceLimit` | backend/src/infrastructure/rate-limit/postgres-throttler.storage.ts:67-92 | By the microsecond clock, every half-open span up to one microsecond longer than the shorter of ttl and blockDuration lets at most twice the limit through; with a block of at least ttl that covers ttl. |
| `RateLimit.SingleHitsSpaced` | backend/src/infrastructure/rate-limit/postgres-throttler.storage.ts:67-92 | With a limit of one every unblocked hit opens its window, so two whole windows lie between a hit and the second one after it. |
| `RateLimit.SpanBoundExact` | backend/src/infrastructure/rate-limit/postgres-throttler.storage.ts:67-92 | **Main result.** For every valid limit, all runs keep every span of length ttl within twice the limit exactly when the limit is 0, or it is 1 and the block longer than half of ttl, or the block is at least ttl. |
| `RateLimit.PurgesInvisible` | backend/src/infrastructure/rate-limit/postgres-throttler.storage.ts:112-132 | **Main result.** Every increment returns the same in a run with purges as in the run without them. |
| `RateLimitAnswers.WindowAnswers` | backend/src/infrastructure/rate-limit/postgres-throttler.storage.ts:67-103 | **Main result.** Of the hits of one window the k-th is answered as blocked exactly when k exceeds the limit, with the hits counted up to one past the limit and the least whole seconds to the end of the window or block. |
| `RateLimitAnswers.HitIsIncrement` | backend/src/infrastructure/rate-limit/postgres-throttler.storage.ts:96-102 | The hits the bounds count are those whose answer is not blocked. |
| `Primitives.ToMillisNearest` | backend/src/infrastructure/rate-limit/postgres-throttler.storage.ts:67-71 | A clock is stored as the nearest millisecond, halves upwards. |
| `Sessions.AuthDatabase.ClaimSession` | backend/src/modules/auth/auth.service.ts:370-382 | The claiming UPDATE: locks exactly an unrevoked, unexpired session for this refresh, or leaves the call to its reuse lookup. |
| `Sessions.AuthDatabase.ReadUser` | backend/src/modules/auth/auth.service.ts:385-397 | Goes on exactly for an account that is active and not deleted at that moment. |
| `Sessions.AuthDatabase.IssueSuccessor` | backend/src/modules/auth/auth.service.ts:407-422 | Commits the rotation and exactly one successor, and releases the lock. |
| `Sessions.AuthDatabase.RejectInactive` | backend/src/modules/auth/auth.service.ts:397-405 | Commits the session as ended for an inactive account, without a successor. |
| `Sessions.AuthDatabase.InspectRotated` | backend/src/modules/auth/auth.service.ts:446-461 | Finds the user to revoke exactly when the stored rotation time is ten seconds old or more. |
| `Sessions.AuthDatabase.BeginReuseRevocation` | backend/src/modules/auth/auth.service.ts:462-469 | Takes the snapshot of the user's unrevoked sessions. |
| `Sessions.AuthDatabase.RevokeRow` | backend/src/modules/auth/auth.service.ts:462-469 | Reaches one row of the snapshot: locks it if it is still unrevoked, passes over it otherwise. |
| `Sessions.AuthDatabase.FinishRevocation` | backend/src/modules/auth/auth.service.ts:747-760 | Commits: revokes exactly the locked rows, and for a reset uses the token and deletes the user's unused ones. |
| `Sessions.AuthDatabase.BeginReset` | backend/src/modules/auth/auth.service.ts:711-753 | Starts exactly for an unused, unexpired token of a usable account; a refusal changes nothing. |
| `Sessions.AuthDatabase.Rollback` | backend/src/modules/auth/auth.service.ts:358-424 | Ends a transaction without a trace and releases its locks. |
| `Sessions.AuthDatabase.CreateSession` | backend/src/modules/auth/auth.service.ts:498-540 | Inserts one session that starts a new login lineage. |
| `Sessions.AuthDatabase.LogoutSession` | backend/src/modules/auth/auth.service.ts:475-484 | Revokes the named session if it is unrevoked. |
| `Sessions.AuthDatabase.RequestDeletion` | backend/src/modules/user/user.service.ts:191-282 | Marks the account for deletion and revokes its sessions; a pending request changes nothing. |
| `Sessions.AuthDatabase.CancelDeletionOnLogin` | backend/src/modules/auth/auth.service.ts:186-220 | A login before the scheduled time cancels the pending deletion and restores the account. |
| `Sessions.RefreshTtlDays` | backend/src/modules/auth/auth.service.ts:486-496 | The refresh lifetime is always between 1 and 90 days. |
| `Sessions.StepKeepsInvariant` | backend/src/modules/auth/auth.service.ts:333-484 | Every statement of every operation keeps the invariants of tables, locks and revocations in progress; sessions are never dropped or handed over, and revoked ones never change. |
| `Sessions.ClaimedAtMostOnce` | backend/src/modules/auth/auth.service.ts:370-382 | **Main result.** In every interleaving of statements each session is claimed by at most one refresh, those in flight included. |
| `Sessions.AtMostOneSuccessor` | backend/src/modules/auth/auth.service.ts:407-422 | **Main result.** In every interleaving each session has at most one successor, and each successor one predecessor. |
| `Sessions.OneLiveSessionPerLogin` | backend/src/modules/auth/auth.service.ts:358-424 | **Main result.** In every interleaving each login lineage has at most one unrevoked session. |
| `Sessions.IssuedReplacesOne` | backend/src/modules/auth/auth.service.ts:407-422 | A commit of a refresh revokes exactly the presented session and adds exactly its successor, of the same user and login. |
| `Sessions.LateReuseIsFound` | backend/src/modules/auth/auth.service.ts:446-461 | A rotated token presented and looked up ten seconds or more after its stored rotation always leads to the user-wide revocation, whatever other calls do in between. |
| `Sessions.GraceExact` | backend/src/modules/auth/auth.service.ts:446-461 | The lookup reports reuse exactly when ten seconds or more have passed since the stored rotation. |
| `Sessions.SweepExact` | backend/src/modules/auth/auth.service.ts:462-469 | From its snapshot through any interleaving to its commit, a user-wide revocation revokes every session the snapshot saw and no session committed since. |
| `Sessions.ReuseEndsExactly` | backend/src/modules/auth/auth.service.ts:446-470 | **Main result.** After the revocation for reuse the user keeps no session the snapshot saw; none is left exactly when every session committed since was revoked by others, and, if nothing else takes a session from the user, exactly when no refresh or login of the user commits one between snapshot and commit. |
| `Sessions.ResetEndsExactly` | backend/src/modules/auth/auth.service.ts:711-761 | **Main result.** The same for a password reset, whose token can never be accepted again. |
| `Sessions.SuccessorSurvivesReuse` | backend/src/modules/auth/auth.service.ts:446-470 | A run without any rollback in which a token reused late is presented, its revocation takes its snapshot and commits, and the successor of another refresh of the user is committed and stays unrevoked. |
| `Sessions.SuccessorSurvivesReset` | backend/src/modules/auth/auth.service.ts:747-753 | The same for a password reset: begun, committed without a rollback, and a successor left unrevoked. |
| `Sessions.LateClaimEscapes` | backend/src/modules/auth/auth.service.ts:462-469 | A refresh that claims only after the snapshot, before its row is reached, escapes too: the revocation commits without a rollback and the successor stays unrevoked. |
| `Sessions.DeletionEndsSessions` | backend/src/modules/user/user.service.ts:231-272 | An accepted deletion request leaves no unrevoked session and no usable account. |
| `Sessions.PromptCallsNeverRevoke` | backend/src/modules/auth/auth.service.ts:446-470 | **Main result.** If every call with a rotated token reaches the lookup less than ten seconds after the stored rotation, no session is ever revoked for reuse. |
| `Sessions.InactiveGetsNoSuccessor` | backend/src/modules/auth/auth.service.ts:397-405 | A refresh that finds the account inactive issues nothing and ends the session. |
| `SessionRows.OnlyUnexpiredAreRefreshed` | backend/src/modules/auth/auth.service.ts:370-424 | **Main result.** In every run a refresh in flight holds a session that was unexpired at its claim, and every successor's predecessor was rotated away before its stored expiry. |
| `SessionRows.ClaimExact` | backend/src/modules/auth/auth.service.ts:370-382 | A claim takes effect exactly on an unrevoked session whose stored expiry lies ahead, and then locks it. |
| `SessionRows.ReadUserExact` | backend/src/modules/auth/auth.service.ts:385-397 | The refresh goes on exactly for an active, undeleted account. |
| `SessionRows.IssueExact` | backend/src/modules/auth/auth.service.ts:407-422 | Column by column: the rotation at the time of the claim, the successor with the configured lifetime, every other row as it was. |
| `SessionRows.RejectExact` | backend/src/modules/auth/auth.service.ts:397-405 | A refused refresh ends the presented session as account-inactive and issues nothing. |
| `SessionRows.InspectExact` | backend/src/modules/auth/auth.service.ts:446-461 | The lookup reports reuse exactly for a session rotated ten seconds ago or more. |
| `SessionRows.SweepCommitExact` | backend/src/modules/auth/auth.service.ts:747-760 | A committed revocation ends the rows it locked and no other; a reset spends its token and removes the user's other unused ones. |
| `SessionRows.ResetExact` | backend/src/modules/auth/auth.service.ts:711-753 | A reset starts exactly for an unused, unexpired token of an active account. |
| `SessionRows.LoginExact` | backend/src/modules/auth/auth.service.ts:498-540 | A login adds one unrevoked session with the configured lifetime and changes no other row. |
| `SessionRows.LogoutExact` | backend/src/modules/auth/auth.service.ts:475-484 | A logout revokes the named session if it is unrevoked, and no other. |
| `SessionRows.DeletionExact` | backend/src/modules/user/user.service.ts:191-282 | An accepted deletion request marks the account, schedules it in seven days, revokes its sessions and unused reset tokens and leaves every other user's rows. |
| `SessionRows.CancelExact` | backend/src/modules/auth/auth.service.ts:186-220 | A login takes the request back exactly before its scheduled time. |
| `SingleFlight.RefreshProcess.JoinOrStart` | frontend/src/features/auth/session-refresh.ts:92-101 | Starts a backend call exactly when the token has none in the table, and joins it otherwise. |
| `SingleFlight.RefreshProcess.FinishFlight` | frontend/src/features/auth/session-refresh.ts:99-99 | Clears exactly that flight's key. |
| `SingleFlight.OneOutstandingPerToken` | frontend/src/features/auth/session-refresh.ts:91-103 | **Main result.** In every interleaving at most one backend refresh per token is outstanding. |
| `SingleFlight.ArrivalsShare` | frontend/src/features/auth/session-refresh.ts:93-101 | A request arriving while its token's call is outstanding starts none of its own. |
| `SingleFlight.JoinersAgree` | frontend/src/features/auth/session-refresh.ts:103-103 | All requests sharing a call receive the same result. |
| `SingleFlight.StepKeepsTable` | frontend/src/features/auth/session-refresh.ts:91-103 | The table holds exactly the unfinished calls, each under its own key, after every step. |
| `SingleFlight.ReceivedIsReply` | frontend/src/features/auth/session-refresh.ts:94-103 | Whatever a request receives is what the backend replied to the call it shares. |
| `Cookies.UpdateCookieHeader` | frontend/src/features/auth/session-refresh.ts:39-67 | Parses, updates and prints the header as specified. |
| `Cookies.HeaderRoundTrip` | frontend/src/features/auth/session-refresh.ts:39-67 | **Main result.** For any old header and updates with well-formed names and values, parsing the header it prints gives the old cookies with the updates applied. |
| `Cookies.WrittenReadsBack` | frontend/src/features/auth/session-refresh.ts:64-66 | Printing well-formed cookies and parsing them gives them back in order. |
| `Cookies.ApplyExact` | frontend/src/features/auth/session-refresh.ts:57-63 | An update changes the named cookie to the new value, or removes it, and no other. |
| `Cookies.ReadHeaderClean` | frontend/src/features/auth/session-refresh.ts:43-56 | Parsing any header gives well-formed cookies with distinct names. |
| `CookieUpdates.UpdatesExact` | frontend/src/features/auth/session-refresh.ts:57-63 | **Main result.** After all updates a name has the value of its last update, or its old value if none names it. |
| `CookieUpdates.HeaderExact` | frontend/src/features/auth/session-refresh.ts:43-56 | A parsed header gives each name the value of the last part that names it, cut at the first equals sign and trimmed. |
| `CookieUpdates.TrimCuts` | frontend/src/features/auth/session-refresh.ts:46-53 | Trimming cuts all white space off both ends and nothing else. |
| `CookieUpdates.SplitExact` | frontend/src/features/auth/session-refresh.ts:45-45 | The parts are the pieces between the semicolons, in order. |
| `MediaRequests.MediaObservability.CompleteIngestionRequest` | backend/src/infrastructure/observability/media-observability.service.ts:130-141 | Settles the handle once, as specified; an unsupported label is an error. |
| `MediaRequests.MediaObservability.CompleteSignedContentRequest` | backend/src/infrastructure/observability/media-observability.service.ts:147-151 | Settles the handle once, as specified. |
| `MediaRequests.MediaObservability.BeginIngestionRequest` | backend/src/infrastructure/observability/media-observability.service.ts:127-142 | Counts the start and opens a handle. |
| `MediaRequests.MediaObservability.BeginSignedContentRequest` | backend/src/infrastructure/observability/media-observability.service.ts:144-152 | Counts the start and opens a handle. |
| `MediaRequests.MediaObservability.ObserveProcessing` | backend/src/infrastructure/observability/media-observability.service.ts:515-528 | The bucket loop adds one to exactly the buckets whose bound the duration does not pass; other durations change nothing. |
| `MediaRequests.BeginConserves` | backend/src/infrastructure/observability/media-observability.service.ts:127-152 | Beginning keeps started = in flight + terminal. |
| `MediaRequests.CompleteIngestionConserves` | backend/src/infrastructure/observability/media-observability.service.ts:130-141 | Completing keeps it, and the clamp at zero never fires. |
| `MediaRequests.CompleteSignedConserves` | backend/src/infrastructure/observability/media-observability.service.ts:147-151 | The same for signed-content requests. |
| `MediaRequests.CompleteKeepsHistograms` | backend/src/infrastructure/observability/media-observability.service.ts:515-548 | Every histogram's count, sum and buckets are those of exactly the durations observed for its outcome. |
| `MediaRequests.BucketsCumulative` | backend/src/infrastructure/observability/media-observability.service.ts:523-527 | **Main result.** Buckets are nondecreasing along their bounds and at most the count. |
| `MediaRequests.MetricsTellTheTruth` | backend/src/infrastructure/observability/media-observability.service.ts:722-733 | **Main result.** In every interleaving of begin and complete calls, repeats included, conservation and exact histograms hold. |
| `MediaRequests.CompleteOnce` | backend/src/infrastructure/observability/media-observability.service.ts:722-733 | A repeated complete changes nothing, whatever it says. |
| `MediaLabels.CountersExact` | backend/src/infrastructure/observability/media-observability.service.ts:127-152 | **Main result.** In every interleaving each counter tells how often requests of its kind began, or were first completed with its label. |
| `MediaLabels.CompleteCountsLabel` | backend/src/infrastructure/observability/media-observability.service.ts:130-141 | A first completion counts the label it names, no other, and takes one request out of flight. |
| `MediaLabels.CompleteCountsSigned` | backend/src/infrastructure/observability/media-observability.service.ts:147-151 | The same for signed content. |
| `MediaLabels.CompleteObserves` | backend/src/infrastructure/observability/media-observability.service.ts:515-528 | A measured duration goes to the histogram of its label, and to no other. |
| `DatabaseSnapshot.DatabaseMetrics.Snapshot` | backend/src/infrastructure/observability/media-observability.service.ts:378-387 | Serves the fresh cache, or joins the active collection, or starts one. |
| `DatabaseSnapshot.DatabaseMetrics.HandlePromise` | backend/src/infrastructure/observability/media-observability.service.ts:415-437 | Writes the cache only for a collection that resolved, counts its outcome once and frees the slot except after a timeout. |
| `DatabaseSnapshot.DatabaseMetrics.ReleaseCollection` | backend/src/infrastructure/observability/media-observability.service.ts:442-451 | Frees the slot once the query itself has settled. |
| `DatabaseSnapshot.DatabaseMetrics.ResumeSnapshot` | backend/src/infrastructure/observability/media-observability.service.ts:388-406 | Answers with the collected state, the stale cache within its bound, or nothing. |
| `DatabaseSnapshot.OneQueryOutstanding` | backend/src/infrastructure/observability/media-observability.service.ts:387-453 | **Main result.** In every interleaving at most one collection query is outstanding. |
| `DatabaseSnapshot.OneOutcomeEach` | backend/src/infrastructure/observability/media-observability.service.ts:493-500 | **Main result.** Each collection counts exactly one outcome, the one its promise came to; the counters add up to the collections handled. |
| `DatabaseSnapshot.TimedOutNeverWrites` | backend/src/infrastructure/observability/media-observability.service.ts:418-434 | **Main result.** A collection that timed out never writes the cache and never becomes a success, however late its reply. |
| `DatabaseSnapshot.AnswersAreHonest` | backend/src/infrastructure/observability/media-observability.service.ts:378-406 | **Main result.** Every state shown, from the cache or not, is the reply of a collection that succeeded in time; a cached one is younger than the cache TTL, or marked stale and no older than the stale TTL. |
| `DatabaseSnapshot.SlotComesFree` | backend/src/infrastructure/observability/media-observability.service.ts:438-451 | Once no query is running, the slot can always be freed. |
| `DatabaseSnapshot.StaleBoundExact` | backend/src/infrastructure/observability/media-observability.service.ts:378-400 | **Main result.** No run serves a cached snapshot older than the stale TTL, exactly when the cache TTL is at most one millisecond longer than the stale TTL. |
| `SnapshotAnswers.ArriveExact` | backend/src/infrastructure/observability/media-observability.service.ts:378-387 | A scrape is answered at once exactly from a fresh cache; otherwise it waits for the active collection or a new one. |
| `SnapshotAnswers.ResumeExact` | backend/src/infrastructure/observability/media-observability.service.ts:388-406 | A resumed scrape shows its collection's reply, or the cache marked stale within its bound, or nothing exactly when there is neither. |
| `SnapshotAnswers.FallbackIsShown` | backend/src/infrastructure/observability/media-observability.service.ts:388-406 | **Main result.** Once a collection has succeeded, every scrape that resumes within the stale TTL shows state: its own collection's or that one's. |
| `SnapshotAnswers.SettleExact` | backend/src/infrastructure/observability/media-observability.service.ts:408-437 | The query's end or the timer, whichever comes first, decides what the promise comes to. |
| `SnapshotAnswers.HandledExact` | backend/src/infrastructure/observability/media-observability.service.ts:415-437 | Only a resolved collection writes the cache, and only a timed-out one keeps the slot. |
| `MigrationResolve.MigrationHistory.RunGuardedMigrationResolveWorker` | backend/scripts/operations/bounded-prisma-migrate-resolve-rolled-back.ts:748-897 | For every schedule of clock readings, aborts, failures and COMMIT replies: committed, unsafe and out of time each exactly when the schedule and the rows say so; the history is marked exactly when COMMIT is reached and durable. |
| `MigrationResolve.MigrationHistory.ResolveInside` | backend/scripts/operations/bounded-prisma-migrate-resolve-rolled-back.ts:773-884 | The callback commits, refuses, runs out of time or stops otherwise, each exactly when its schedule and the rows say so; an unsafe verdict reports a state that fails the preconditions. |
| `MigrationResolve.MigrationHistory.RunInTransaction` | backend/scripts/operations/bounded-prisma-migrate-resolve-rolled-back.ts:694-733 | Rolls back on every throw before COMMIT; a failing disconnect never turns an acknowledged commit into a failure. |
| `MigrationResolve.MigrationHistory.TakeGuardLocks` | backend/scripts/operations/bounded-prisma-migrate-resolve-rolled-back.ts:782-793 | Succeeds exactly when every needed lock is granted. |
| `MigrationResolve.MigrationHistory.RunBoundedMigrationResolveRolledBack` | backend/scripts/operations/bounded-prisma-migrate-resolve-rolled-back.ts:921-1038 | Returns 0 exactly when COMMIT is reached and acknowledged, 78 exactly for a refusal and 124 exactly for a deadline, otherwise 70, and leaves the history the worker leaves. |
| `MigrationResolve.MigrationHistory.RunProcess` | backend/scripts/operations/bounded-prisma-migrate-resolve-rolled-back.ts:1050-1098 | **Main result.** Exit code 0 always means that exactly the target row gained rolled_back_at; whatever signals arrive, the code tells whether the history changed exactly unless COMMIT was durable and its acknowledgement lost. Which nonzero code comes out is exact as well. |
| `MigrationResolve.PreconditionsExact` | backend/scripts/operations/bounded-prisma-migrate-resolve-rolled-back.ts:573-597 | The count checks hold exactly when the history has one unresolved row, it is the target's only row with the source's checksum, and as many migrations succeeded as precede it, with no residue. |
| `MigrationResolve.UpdateTouchesOneRow` | backend/scripts/operations/bounded-prisma-migrate-resolve-rolled-back.ts:636-644 | Under the preconditions the UPDATE reports exactly one row. |
| `MigrationResolve.UpdateGivesPostconditions` | backend/scripts/operations/bounded-prisma-migrate-resolve-rolled-back.ts:600-626 | **Main result.** The preconditions and the UPDATE imply every postcondition, given the same source file and residue. |
| `MigrationResolve.CommitMarksTarget` | backend/scripts/operations/bounded-prisma-migrate-resolve-rolled-back.ts:636-644 | A commit changes exactly the target row's rolled_back_at. |
| `MigrationResolve.UndisturbedCommitsExactlyWhenSafe` | backend/scripts/operations/bounded-prisma-migrate-resolve-rolled-back.ts:748-897 | **Main result.** An undisturbed attempt reaches COMMIT exactly when the preconditions hold: the second look never objects on its own. |
| `MigrationResolve.CommitExact` | backend/scripts/operations/bounded-prisma-migrate-resolve-rolled-back.ts:748-897 | **Main result.** COMMIT is reached exactly when the attempt is undisturbed, the target's row is the sole failed one, the expected migrations succeeded, and both looks read the expected source file and no residue. |
| `MigrationResolve.SecondLookExact` | backend/scripts/operations/bounded-prisma-migrate-resolve-rolled-back.ts:600-626 | The second look objects exactly when the source file or the residue changed in between. |

## Left out

- Controllers, guards, filters, OpenAPI and every React or Next.js page: wiring.
- S3, mail, ClamAV, pg-boss, Prisma internals, argon2 and JWT signing: foreign calls.
- Regex text rules, placeholder detection, the hexadecimal secret form, byte entropy and Unicode tables: the rules enter as parameters where a property needs them.
- Fill-in-the-blank and speaking answers, byte limits and media ids of authored exercises: checks of single fields.
- Lesson and topic authoring: only their row locks are modelled; their revisions follow the exercise pattern.
- Rows, cascades and triggers PostgreSQL enforces: a step is told whether the constraints accept it.
- PostgreSQL's lock queue, and implicit foreign-key locks except where a deletion request relies on them: only explicit row locks are modelled.
- Deadlock detection among session updates: a transaction that loses is a rollback step, whatever its cause.
- Who lists, previews or reads content: read-only.
- Error reports of a rejected import, beyond the structural errors that enter the preview hash.
- The trimming of review notes: a review step receives the trimmed note.
- Purging expired sessions, anonymisation and export jobs: they act on accounts already ended.
- Duration summaries other than the processing histogram: sums only.
- Residue probes of the migration target: opaque counts read at each look.
- A rejected worker promise in the migration runner: the worker catches everything it awaits.
- Concurrent writers of the migration history: the table lock keeps them out from the first look to the end of the transaction.
- DepthGuards.ExceedsJsonDepth: stated for values a JSON parser produces, since the middleware sees only parsed bodies.
