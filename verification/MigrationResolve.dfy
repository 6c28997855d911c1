/** Marking a failed migration as rolled back, guarded by preconditions, deadlines and cancellation
    (bounded-prisma-migrate-resolve-rolled-back.ts). */
module MigrationResolve {
  import opened Outcomes

  const SHUTDOWN_RESERVE_MS := 250
  const MAX_SAFE_INTEGER := 9_007_199_254_740_991

  const EXIT_USAGE := 64
  const EXIT_INTERNAL_FAILURE := 70
  const EXIT_RESOLVE_PRECONDITION := 78
  const EXIT_COMMAND_TIMEOUT := 124

  /** A row of "_prisma_migrations"; ids stand for their place in the primary key's order. */
  datatype Row = Row(
    id: nat, name: string, checksum: string, startedAt: int, finishedAt: Option<int>, rolledBackAt: Option<int>)

  /** `wellShaped` is the verdict of the name and checksum patterns. */
  datatype Target = Target(
    name: string, sourceChecksum: string, predecessors: int, guardsMediaCleanupAudit: bool, wellShaped: bool)

  /** What the residue probes of a guarding target count. */
  datatype Residue = Residue(functions: nat, triggers: nat, violations: nat)

  const NO_RESIDUE := Residue(0, 0, 0)

  predicate DistinctIds(rows: seq<Row>) {
    forall i, j | 0 <= i < j < |rows| :: rows[i].id != rows[j].id
  }

  // ----- The state query -----

  /** The COUNT(*) subqueries. */
  datatype Kind = OfTarget | UnresolvedTarget | Unresolved | FinishedTarget | RolledBackTarget | Successful

  predicate Matches(kind: Kind, name: string, row: Row) {
    match kind
    case OfTarget => row.name == name
    case UnresolvedTarget => row.name == name && row.finishedAt.None? && row.rolledBackAt.None?
    case Unresolved => row.finishedAt.None? && row.rolledBackAt.None?
    case FinishedTarget => row.name == name && row.finishedAt.Some? && row.rolledBackAt.None?
    case RolledBackTarget => row.name == name && row.rolledBackAt.Some?
    case Successful => row.finishedAt.Some? && row.rolledBackAt.None?
  }

  function Count(rows: seq<Row>, kind: Kind, name: string): nat {
    if rows == [] then 0
    else Count(rows[..|rows| - 1], kind, name) + (if Matches(kind, name, rows[|rows| - 1]) then 1 else 0)
  }

  predicate Before(a: Row, b: Row) {
    a.startedAt < b.startedAt || (a.startedAt == b.startedAt && a.id < b.id)
  }

  /** ORDER BY started_at, id LIMIT 1. */
  function FirstOfTarget(rows: seq<Row>, name: string): Option<Row> {
    if rows == [] then None else
    var last := rows[|rows| - 1];
    var first := FirstOfTarget(rows[..|rows| - 1], name);
    if last.name == name && (first.None? || Before(last, first.value)) then Some(last) else first
  }

  /** COALESCE(bool_and(checksum = ...), false). */
  predicate ChecksumMatches(rows: seq<Row>, target: Target) {
    && (exists i :: 0 <= i < |rows| && rows[i].name == target.name)
    && (forall i | 0 <= i < |rows| && rows[i].name == target.name :: rows[i].checksum == target.sourceChecksum)
  }

  datatype ResolveState = ResolveState(
    targetId: Option<nat>, ofTarget: nat, unresolvedTarget: nat, unresolved: nat, finishedTarget: nat,
    rolledBackTarget: nat, successful: nat, expectedSuccessful: int,
    targetChecksumMatches: bool, sourceChecksumMatches: bool, residue: Residue)

  function StateOf(rows: seq<Row>, target: Target, sourceChecksum: Option<string>, residue: Residue): ResolveState {
    var first := FirstOfTarget(rows, target.name);
    ResolveState(
      if first.Some? then Some(first.value.id) else None,
      Count(rows, OfTarget, target.name), Count(rows, UnresolvedTarget, target.name),
      Count(rows, Unresolved, target.name),
      Count(rows, FinishedTarget, target.name), Count(rows, RolledBackTarget, target.name),
      Count(rows, Successful, target.name),
      target.predecessors, ChecksumMatches(rows, target), sourceChecksum == Some(target.sourceChecksum),
      if target.guardsMediaCleanupAudit then residue else NO_RESIDUE)
  }

  predicate SafeInteger(n: int) { -MAX_SAFE_INTEGER <= n <= MAX_SAFE_INTEGER }

  predicate Preconditions(s: ResolveState) {
    && s.targetId.Some? && s.ofTarget == 1 && s.unresolvedTarget == 1 && s.unresolved == 1
    && s.finishedTarget == 0 && s.rolledBackTarget == 0
    && SafeInteger(s.expectedSuccessful) && s.successful == s.expectedSuccessful
    && s.targetChecksumMatches && s.sourceChecksumMatches && s.residue == NO_RESIDUE
  }

  predicate Postconditions(s: ResolveState, expectedId: Option<nat>) {
    && s.targetId.Some? && s.targetId == expectedId && s.ofTarget == 1 && s.unresolvedTarget == 0 && s.unresolved == 0
    && s.finishedTarget == 0 && s.rolledBackTarget == 1
    && SafeInteger(s.expectedSuccessful) && s.successful == s.expectedSuccessful
    && s.targetChecksumMatches && s.sourceChecksumMatches && s.residue == NO_RESIDUE
  }

  // ----- The update -----

  predicate Selected(row: Row, target: Target, id: Option<nat>) {
    Some(row.id) == id && row.name == target.name && row.checksum == target.sourceChecksum
    && row.finishedAt.None? && row.rolledBackAt.None?
  }

  function Marked(rows: seq<Row>, target: Target, id: Option<nat>, stamp: int): seq<Row> {
    seq(|rows|, i requires 0 <= i < |rows| =>
      if Selected(rows[i], target, id) then rows[i].(rolledBackAt := Some(stamp)) else rows[i])
  }

  function SelectedCount(rows: seq<Row>, target: Target, id: Option<nat>): nat {
    if rows == [] then 0
    else SelectedCount(rows[..|rows| - 1], target, id) + (if Selected(rows[|rows| - 1], target, id) then 1 else 0)
  }

  // ----- One attempt against every possible environment -----

  datatype AdvisoryReply = AdvisoryFails | Malformed | Acquired(yes: bool)

  datatype LockReply = Locked | LockTimeout | LockFails

  /** How COMMIT ends: acknowledged, rolled back with an error, or durable although its
      acknowledgement is lost. */
  datatype CommitReply = Acknowledged | RolledBack | AcknowledgementLost

  /** Everything the worker does not decide itself: clock readings, whether the signal is aborted
      at each look, what each database call and file read does, and whether COMMIT succeeds. */
  datatype Schedule = Schedule(
    deadlineAt: int, abortedAtStart: bool, startsAt: int, transactionStarts: bool,
    advisory: AdvisoryReply, historyLock: LockReply, mediaLock: LockReply, auditLock: LockReply,
    firstChecksum: Option<string>, firstRead: bool, firstResidue: Residue,
    mutatesAt: int, abortedBeforeMutation: bool, updateFails: bool, stamp: int,
    abortedAfterMutation: bool, mutatedAt: int,
    secondRead: bool, secondChecksum: Option<string>, secondResidue: Residue,
    abortedBeforeCommit: bool, commitsAt: int, commitReply: CommitReply, disconnectFails: bool,
    failedAt: int, abortedAtFailure: bool)

  datatype Outcome =
    | Unsafe(seen: Option<ResolveState>) | Internal | Deadline | Cancelled | Committed(state: ResolveState)

  /** What the transaction callback returns; a thrown error is Failure and rolls back. */
  datatype Decision = Stop(outcome: Outcome) | Commit(state: ResolveState)

  datatype Thrown = Thrown

  /** A lock that is not granted in time is unsafe; any other failure is internal. */
  function Refusal(reply: LockReply): Option<Outcome> {
    match reply
    case Locked => None
    case LockTimeout => Some(Unsafe(None))
    case LockFails => Some(Internal)
  }

  predicate InTime(s: Schedule, now: int) {
    s.deadlineAt - now - SHUTDOWN_RESERVE_MS > 0
  }

  predicate Shaped(target: Target) {
    target.wellShaped && 0 <= target.predecessors <= MAX_SAFE_INTEGER
  }

  function FirstState(rows: seq<Row>, target: Target, s: Schedule): ResolveState {
    StateOf(rows, target, s.firstChecksum, s.firstResidue)
  }

  function SecondState(rows: seq<Row>, target: Target, s: Schedule): ResolveState {
    var marked := Marked(rows, target, FirstState(rows, target, s).targetId, s.stamp);
    StateOf(marked, target, s.secondChecksum, s.secondResidue)
  }

  predicate Starts(target: Target, s: Schedule) {
    && !s.abortedAtStart && SafeInteger(s.deadlineAt) && s.deadlineAt > 0 && Shaped(target)
    && InTime(s, s.startsAt) && s.transactionStarts
  }

  predicate GuardLocksGranted(target: Target, s: Schedule) {
    s.historyLock.Locked? && (target.guardsMediaCleanupAudit ==> s.mediaLock.Locked? && s.auditLock.Locked?)
  }

  predicate LocksGranted(target: Target, s: Schedule) {
    s.advisory == Acquired(true) && GuardLocksGranted(target, s)
  }

  /** No failure, deadline or cancellation at any look before COMMIT. */
  predicate Undisturbed(target: Target, s: Schedule) {
    && Starts(target, s) && LocksGranted(target, s)
    && s.firstChecksum.Some? && s.firstRead && InTime(s, s.mutatesAt) && !s.abortedBeforeMutation
    && !s.updateFails && !s.abortedAfterMutation && InTime(s, s.mutatedAt)
    && s.secondRead && s.secondChecksum.Some? && !s.abortedBeforeCommit && InTime(s, s.commitsAt)
  }

  /** What the command checks before it calls the worker. */
  datatype Request = Request(
    databaseAllowed: bool, target: Option<Target>, environmentBounded: bool, now: int, timerFires: bool)
  {
    predicate Accepted(deadlineAt: int) {
      databaseAllowed && target.Some? && environmentBounded && now < deadlineAt
    }
  }

  function SelectExitCode(resolveExitCode: int, signalExitCode: Option<int>): int {
    if resolveExitCode == 0 then 0
    else match signalExitCode case Some(code) => code case None => resolveExitCode
  }

  /** The attempt is undisturbed, the first look meets the preconditions and the second look the
      postconditions, so the callback returns its irrevocable decision. */
  predicate ReachesCommit(rows: seq<Row>, target: Target, s: Schedule) {
    && Undisturbed(target, s) && Preconditions(FirstState(rows, target, s))
    && Postconditions(SecondState(rows, target, s), FirstState(rows, target, s).targetId)
  }

  // ----- What else an attempt can come to -----

  /** The first guard lock not granted ran into the lock timeout. */
  predicate GuardLockTimesOut(target: Target, s: Schedule) {
    || s.historyLock.LockTimeout?
    || (s.historyLock.Locked? && target.guardsMediaCleanupAudit
        && (s.mediaLock.LockTimeout? || (s.mediaLock.Locked? && s.auditLock.LockTimeout?)))
  }

  /** The history was locked and read. */
  predicate Looks(target: Target, s: Schedule) {
    LocksGranted(target, s) && s.firstChecksum.Some? && s.firstRead
  }

  /** The callback refuses: another worker holds the advisory lock, a guard lock is not to be had,
      or the history is not in the state it should be in. */
  predicate FindsUnsafe(rows: seq<Row>, target: Target, s: Schedule) {
    || s.advisory == Acquired(false)
    || (s.advisory == Acquired(true) && GuardLockTimesOut(target, s))
    || (Looks(target, s) && !Preconditions(FirstState(rows, target, s)))
  }

  /** The callback stops because the deadline leaves no time to change anything. */
  predicate FindsNoTime(rows: seq<Row>, target: Target, s: Schedule) {
    Looks(target, s) && Preconditions(FirstState(rows, target, s)) && !InTime(s, s.mutatesAt)
  }

  /** The callback stops for any other reason without throwing. */
  predicate StopsOtherwise(rows: seq<Row>, target: Target, s: Schedule) {
    || s.advisory.Malformed?
    || (s.advisory == Acquired(true) && !GuardLocksGranted(target, s) && !GuardLockTimesOut(target, s))
    || (LocksGranted(target, s) && s.firstChecksum.Some? && !s.firstRead)
    || (Looks(target, s) && Preconditions(FirstState(rows, target, s)) && InTime(s, s.mutatesAt)
        && s.abortedBeforeMutation)
  }

  predicate Admitted(target: Target, s: Schedule) {
    !s.abortedAtStart && SafeInteger(s.deadlineAt) && s.deadlineAt > 0 && Shaped(target)
  }

  /** A stop of the callback arrives: its transaction and the disconnect went through. */
  predicate StopArrives(s: Schedule) {
    s.transactionStarts && s.commitReply.Acknowledged? && !s.disconnectFails
  }

  /** Nothing the callback returned arrives. */
  predicate Throws(rows: seq<Row>, target: Target, s: Schedule) {
    && !(s.transactionStarts && s.commitReply.Acknowledged? && ReachesCommit(rows, target, s))
    && !(StopArrives(s) && (FindsUnsafe(rows, target, s) || FindsNoTime(rows, target, s)
                            || StopsOtherwise(rows, target, s)))
  }

  /** The worker refuses the attempt. */
  predicate Refuses(rows: seq<Row>, target: Target, s: Schedule) {
    && !s.abortedAtStart && SafeInteger(s.deadlineAt) && s.deadlineAt > 0
    && (!Shaped(target) || (InTime(s, s.startsAt) && StopArrives(s) && FindsUnsafe(rows, target, s)))
  }

  /** The worker runs out of time. */
  predicate RunsOut(rows: seq<Row>, target: Target, s: Schedule) {
    && Admitted(target, s)
    && (!InTime(s, s.startsAt)
        || (StopArrives(s) && FindsNoTime(rows, target, s))
        || (Throws(rows, target, s) && s.deadlineAt - s.failedAt <= 250))
  }

  /** The command is told that its COMMIT took effect. */
  predicate Succeeds(rows: seq<Row>, request: Request, s: Schedule) {
    && request.Accepted(s.deadlineAt) && ReachesCommit(rows, request.target.value, s) && s.commitReply.Acknowledged?
  }

  predicate TimesOut(rows: seq<Row>, request: Request, s: Schedule) {
    && request.databaseAllowed && request.target.Some? && request.environmentBounded
    && (s.deadlineAt <= request.now
        || (!Succeeds(rows, request, s) && (request.timerFires || RunsOut(rows, request.target.value, s))))
  }

  predicate RefusesCommand(rows: seq<Row>, request: Request, s: Schedule) {
    || !request.databaseAllowed || request.target.None? || !request.environmentBounded
    || (request.now < s.deadlineAt && !request.timerFires && Refuses(rows, request.target.value, s))
  }

  /** The durable history: marked if the COMMIT of that decision took effect, otherwise as before. */
  function HistoryAfter(rows: seq<Row>, target: Target, s: Schedule): seq<Row> {
    if ReachesCommit(rows, target, s) && !s.commitReply.RolledBack?
    then Marked(rows, target, FirstState(rows, target, s).targetId, s.stamp) else rows
  }

  /** COMMIT is reached and durable, but its acknowledgement never arrives. */
  predicate LosesAcknowledgement(rows: seq<Row>, request: Request, targetGiven: bool, s: Schedule) {
    && targetGiven && request.Accepted(s.deadlineAt) && ReachesCommit(rows, request.target.value, s)
    && s.commitReply.AcknowledgementLost?
  }

  class MigrationHistory {
    var rows: seq<Row>

    /** The guard locks; None when all are held. */
    method TakeGuardLocks(target: Target, s: Schedule) returns (stopped: Option<Outcome>)
      ensures stopped.None? <==> GuardLocksGranted(target, s)
      ensures stopped.Some? ==> stopped.value == if GuardLockTimesOut(target, s) then Unsafe(None) else Internal
    {
      stopped := Refusal(s.historyLock);
      if stopped.None? && target.guardsMediaCleanupAudit {
        stopped := Refusal(s.mediaLock);
        if stopped.None? { stopped := Refusal(s.auditLock); }
      }
    }

    /** The transaction callback, working on the transaction's own view of the rows. */
    method ResolveInside(view: seq<Row>, target: Target, s: Schedule)
      returns (r: Result<Decision, Thrown>, changed: seq<Row>)
      requires DistinctIds(view) && Starts(target, s)
      ensures r.Success? && r.value.Stop? ==> changed == view
      ensures r.Success? && r.value.Commit? <==>
        ReachesCommit(view, target, s)
      ensures r.Success? && r.value.Commit? ==>
        && changed == Marked(view, target, FirstState(view, target, s).targetId, s.stamp)
        && r.value.state == SecondState(view, target, s)
      ensures r.Success? && r.value.Stop? ==> !r.value.outcome.Committed?
      ensures r.Success? && r.value.Stop? && r.value.outcome.Unsafe? <==> FindsUnsafe(view, target, s)
      ensures r.Success? && r.value.Stop? && r.value.outcome.Deadline? <==> FindsNoTime(view, target, s)
      ensures r.Success? && r.value.Stop? && !r.value.outcome.Unsafe? && !r.value.outcome.Deadline? <==>
        StopsOtherwise(view, target, s)
      ensures r.Success? && r.value.Stop? && r.value.outcome.Unsafe? && r.value.outcome.seen.Some? ==>
        r.value.outcome.seen.value == FirstState(view, target, s) && !Preconditions(FirstState(view, target, s))
    {
      hide StateOf, Marked, Preconditions, Postconditions;
      changed := view;
      if s.advisory.AdvisoryFails? { return Failure(Thrown), changed; }
      if s.advisory.Malformed? { return Success(Stop(Internal)), changed; }
      if !s.advisory.yes { return Success(Stop(Unsafe(None))), changed; }

      var stopped := TakeGuardLocks(target, s);
      if stopped.Some? { return Success(Stop(stopped.value)), changed; }

      if s.firstChecksum.None? { return Failure(Thrown), changed; }
      if !s.firstRead { return Success(Stop(Internal)), changed; }
      var before := StateOf(changed, target, s.firstChecksum, s.firstResidue);
      if !Preconditions(before) { return Success(Stop(Unsafe(Some(before)))), changed; }

      if !InTime(s, s.mutatesAt) { return Success(Stop(Deadline)), changed; }
      if s.abortedBeforeMutation { return Success(Stop(Cancelled)), changed; }

      if s.updateFails { return Failure(Thrown), changed; }
      var mutatedRows := SelectedCount(changed, target, before.targetId);
      UpdateTouchesOneRow(view, target, s.firstChecksum, s.firstResidue);
      changed := Marked(changed, target, before.targetId, s.stamp);
      if mutatedRows != 1 { return Failure(Thrown), changed; }
      if s.abortedAfterMutation { return Failure(Thrown), changed; }
      if !InTime(s, s.mutatedAt) { return Failure(Thrown), changed; }

      if !s.secondRead || s.secondChecksum.None? { return Failure(Thrown), changed; }
      var after := StateOf(changed, target, s.secondChecksum, s.secondResidue);
      if !Postconditions(after, before.targetId) { return Failure(Thrown), changed; }
      if s.abortedBeforeCommit { return Failure(Thrown), changed; }
      if !InTime(s, s.commitsAt) { return Failure(Thrown), changed; }
      r := Success(Commit(after));
    }

    /** Prisma's interactive transaction followed by the disconnect. A decision other than commit
        commits a transaction that changed nothing. */
    method RunInTransaction(target: Target, s: Schedule) returns (r: Result<Decision, Thrown>)
      requires DistinctIds(rows) && !s.abortedAtStart && SafeInteger(s.deadlineAt) && s.deadlineAt > 0 && Shaped(target)
      requires InTime(s, s.startsAt)
      modifies this
      ensures r.Success? && r.value.Commit? <==> ReachesCommit(old(rows), target, s) && s.commitReply.Acknowledged?
      ensures r.Success? && r.value.Commit? ==> r.value.state == SecondState(old(rows), target, s)
      ensures rows == HistoryAfter(old(rows), target, s)
      ensures r.Success? && r.value.Stop? ==> !r.value.outcome.Committed?
      ensures r.Failure? <==> Throws(old(rows), target, s)
      ensures r.Success? && r.value.Stop? && r.value.outcome.Unsafe? <==>
        StopArrives(s) && FindsUnsafe(old(rows), target, s)
      ensures r.Success? && r.value.Stop? && r.value.outcome.Deadline? <==>
        StopArrives(s) && FindsNoTime(old(rows), target, s)
      ensures r.Success? && r.value.Stop? && r.value.outcome.Unsafe? && r.value.outcome.seen.Some? ==>
        && r.value.outcome.seen.value == FirstState(old(rows), target, s)
        && !Preconditions(FirstState(old(rows), target, s))
    {
      hide StateOf, Marked, Preconditions, Postconditions, FirstState, SecondState;
      hide FindsUnsafe, FindsNoTime, StopsOtherwise;
      var committedMutation, transactionFailed := false, false;
      r := Failure(Thrown);
      if !s.transactionStarts {
        transactionFailed := true;
      } else {
        var changed;
        r, changed := ResolveInside(rows, target, s);
        if r.Success? && !s.commitReply.RolledBack? { rows := changed; }
        if r.Failure? || !s.commitReply.Acknowledged? {
          r, transactionFailed := Failure(Thrown), true;
        } else {
          committedMutation := r.value.Commit?;
        }
      }
      if s.disconnectFails && !committedMutation && !transactionFailed {
        r := Failure(Thrown);
      }
    }

    /** The worker reports `committed` exactly when the target row, and nothing else, was marked
        and COMMIT acknowledged. */
    method RunGuardedMigrationResolveWorker(target: Target, s: Schedule) returns (r: Outcome)
      requires DistinctIds(rows)
      modifies this
      ensures r.Committed? <==> ReachesCommit(old(rows), target, s) && s.commitReply.Acknowledged?
      ensures r.Committed? ==> r.state == SecondState(old(rows), target, s)
      ensures rows == HistoryAfter(old(rows), target, s)
      ensures r.Unsafe? && r.seen.Some? ==>
        r.seen.value == FirstState(old(rows), target, s) && !Preconditions(FirstState(old(rows), target, s))
      ensures r.Unsafe? <==> Refuses(old(rows), target, s)
      ensures r.Deadline? <==> RunsOut(old(rows), target, s)
    {
      hide StateOf, Marked, Preconditions, Postconditions, FirstState, SecondState;
      hide FindsUnsafe, FindsNoTime, StopsOtherwise, Throws;
      if s.abortedAtStart { return Cancelled; }
      if !SafeInteger(s.deadlineAt) || s.deadlineAt <= 0 { return Internal; }
      if !Shaped(target) { return Unsafe(None); }
      if !InTime(s, s.startsAt) { return Deadline; }
      var decision := RunInTransaction(target, s);
      if decision.Failure? {
        if s.deadlineAt - s.failedAt <= SHUTDOWN_RESERVE_MS { return Deadline; }
        return if s.abortedAtFailure then Cancelled else Internal;
      }
      r := match decision.value case Commit(state) => Committed(state) case Stop(outcome) => outcome;
    }

    /** The command around the worker, returning its exit code. */
    method RunBoundedMigrationResolveRolledBack(request: Request, s: Schedule) returns (code: int)
      requires DistinctIds(rows)
      modifies this
      ensures code == 0 <==> Succeeds(old(rows), request, s)
      ensures rows ==
        if request.Accepted(s.deadlineAt) then HistoryAfter(old(rows), request.target.value, s) else old(rows)
      ensures code == 124 <==> TimesOut(old(rows), request, s)
      ensures code == 78 <==> RefusesCommand(old(rows), request, s)
      ensures code in {0, 70, 78, 124}
    {
      hide Refuses, RunsOut, ReachesCommit, HistoryAfter, Preconditions, FirstState;
      if !request.databaseAllowed { return EXIT_RESOLVE_PRECONDITION; }
      if request.target.None? { return EXIT_RESOLVE_PRECONDITION; }
      if !request.environmentBounded { return EXIT_RESOLVE_PRECONDITION; }
      if s.deadlineAt - request.now <= 0 { return EXIT_COMMAND_TIMEOUT; }
      var outcome := RunGuardedMigrationResolveWorker(request.target.value, s);
      if outcome.Committed? { return 0; }
      if request.timerFires || outcome.Deadline? { return EXIT_COMMAND_TIMEOUT; }
      if outcome.Unsafe? { return EXIT_RESOLVE_PRECONDITION; }
      code := EXIT_INTERNAL_FAILURE;
    }

    /** The process: exit code 0 always means that exactly the target row was marked, and whatever
        signals came the code tells whether the history changed, unless COMMIT was reached and its
        acknowledgement lost. */
    method RunProcess(request: Request, targetGiven: bool, signalExitCode: Option<int>,
        s: Schedule) returns (exitCode: int)
      requires DistinctIds(rows) && (signalExitCode.Some? ==> signalExitCode.value in {130, 143})
      modifies this
      ensures !targetGiven ==> exitCode == 64
      ensures targetGiven ==> (exitCode == 0 <==> Succeeds(old(rows), request, s))
      ensures targetGiven && exitCode != 0 && signalExitCode.Some? ==> exitCode == signalExitCode.value
      ensures targetGiven && signalExitCode.None? ==>
        && (exitCode == 124 <==> TimesOut(old(rows), request, s))
        && (exitCode == 78 <==> RefusesCommand(old(rows), request, s)) && exitCode in {0, 70, 78, 124}
      ensures exitCode == 0 ==> request.target.Some? && ExactlyTargetMarked(old(rows), rows, request.target.value)
      ensures (exitCode == 0 <==> rows != old(rows)) <==> !LosesAcknowledgement(old(rows), request, targetGiven, s)
      ensures rows != old(rows) ==> request.target.Some? && ExactlyTargetMarked(old(rows), rows, request.target.value)
    {
      hide TimesOut, RefusesCommand;
      if !targetGiven { return EXIT_USAGE; }
      var result := RunBoundedMigrationResolveRolledBack(request, s);
      if request.Accepted(s.deadlineAt) && ReachesCommit(old(rows), request.target.value, s) {
        CommitMarksTarget(old(rows), request.target.value, s);
      }
      exitCode := SelectExitCode(result, signalExitCode);
    }
  }

  // ----- Counting -----

  lemma {:induction false} CountAfterUpdate(rows: seq<Row>, i: nat, row: Row, kind: Kind, name: string)
    requires i < |rows|
    ensures Count(rows[i := row], kind, name) == Count(rows, kind, name)
      - (if Matches(kind, name, rows[i]) then 1 else 0) + (if Matches(kind, name, row) then 1 else 0)
  {
    var last := |rows| - 1;
    if i < last {
      CountAfterUpdate(rows[..last], i, row, kind, name);
      assert rows[i := row][..last] == rows[..last][i := row];
    } else {
      assert rows[i := row][..last] == rows[..last];
    }
  }

  lemma {:induction false} CountZero(rows: seq<Row>, kind: Kind, name: string)
    ensures Count(rows, kind, name) == 0 <==> forall i | 0 <= i < |rows| :: !Matches(kind, name, rows[i])
  {
    if rows != [] {
      var last := |rows| - 1;
      CountZero(rows[..last], kind, name);
      assert forall i | 0 <= i < last :: rows[..last][i] == rows[i];
    }
  }

  predicate OnlyAt(rows: seq<Row>, kind: Kind, name: string, i: nat) {
    i < |rows| && forall j | 0 <= j < |rows| :: Matches(kind, name, rows[j]) <==> j == i
  }

  lemma {:induction false} CountOne(rows: seq<Row>, kind: Kind, name: string)
    ensures Count(rows, kind, name) == 1 <==> exists i: nat :: OnlyAt(rows, kind, name, i)
  {
    if rows != [] {
      var last := |rows| - 1;
      var front := rows[..last];
      assert forall i | 0 <= i < last :: front[i] == rows[i];
      if Matches(kind, name, rows[last]) {
        CountZero(front, kind, name);
        if Count(front, kind, name) == 0 { assert OnlyAt(rows, kind, name, last); }
        if i: nat :| OnlyAt(rows, kind, name, i) { assert i == last; }
      } else {
        CountOne(front, kind, name);
        if i: nat :| OnlyAt(front, kind, name, i) { assert OnlyAt(rows, kind, name, i); }
        if i: nat :| OnlyAt(rows, kind, name, i) { assert OnlyAt(front, kind, name, i); }
      }
    }
  }

  lemma {:induction false} FirstIsOnly(rows: seq<Row>, name: string, i: nat)
    requires OnlyAt(rows, OfTarget, name, i)
    ensures FirstOfTarget(rows, name) == Some(rows[i])
  {
    var last := |rows| - 1;
    var front := rows[..last];
    assert forall j | 0 <= j < last :: front[j] == rows[j];
    if i < last {
      FirstIsOnly(front, name, i);
      assert !Matches(OfTarget, name, rows[last]);
    } else {
      forall j | 0 <= j < |front| ensures front[j].name != name { assert !Matches(OfTarget, name, rows[j]); }
      NoneOfTarget(front, name);
      assert Matches(OfTarget, name, rows[last]);
    }
  }

  lemma {:induction false} NoneOfTarget(rows: seq<Row>, name: string)
    requires forall j | 0 <= j < |rows| :: rows[j].name != name
    ensures FirstOfTarget(rows, name).None?
  {
    if rows != [] { NoneOfTarget(rows[..|rows| - 1], name); }
  }

  // ----- What the preconditions mean -----

  /** Row i is the target's only row and the only unresolved one, with the target's checksum. */
  predicate SoleFailure(rows: seq<Row>, target: Target, i: nat) {
    && OnlyAt(rows, OfTarget, target.name, i) && OnlyAt(rows, Unresolved, target.name, i)
    && rows[i].checksum == target.sourceChecksum
  }

  lemma SoleFailureCounts(rows: seq<Row>, target: Target, i: nat)
    requires SoleFailure(rows, target, i)
    ensures Count(rows, OfTarget, target.name) == Count(rows, Unresolved, target.name) ==
      Count(rows, UnresolvedTarget, target.name) == 1
    ensures Count(rows, FinishedTarget, target.name) == Count(rows, RolledBackTarget, target.name) == 0
    ensures FirstOfTarget(rows, target.name) == Some(rows[i]) && ChecksumMatches(rows, target)
  {
    hide Count, FirstOfTarget;
    var name := target.name;
    CountOne(rows, OfTarget, name);
    CountOne(rows, Unresolved, name);
    assert Matches(OfTarget, name, rows[i]) && Matches(Unresolved, name, rows[i]);
    forall j | 0 <= j < |rows| ensures
      && (Matches(UnresolvedTarget, name, rows[j]) <==> j == i)
      && !Matches(FinishedTarget, name, rows[j]) && !Matches(RolledBackTarget, name, rows[j])
    {
      assert Matches(OfTarget, name, rows[j]) <==> j == i;
    }
    assert OnlyAt(rows, UnresolvedTarget, name, i);
    CountOne(rows, UnresolvedTarget, name);
    CountZero(rows, FinishedTarget, name);
    CountZero(rows, RolledBackTarget, name);
    FirstIsOnly(rows, name, i);
    forall j | 0 <= j < |rows| && rows[j].name == name ensures rows[j].checksum == target.sourceChecksum {
      assert Matches(OfTarget, name, rows[j]);
    }
  }

  lemma CountsGiveSoleFailure(rows: seq<Row>, target: Target) returns (i: nat)
    requires Count(rows, OfTarget, target.name) == Count(rows, Unresolved, target.name) ==
      Count(rows, UnresolvedTarget, target.name) == 1
    requires ChecksumMatches(rows, target)
    ensures SoleFailure(rows, target, i)
  {
    hide Count;
    var name := target.name;
    CountOne(rows, OfTarget, name);
    CountOne(rows, Unresolved, name);
    CountOne(rows, UnresolvedTarget, name);
    i :| OnlyAt(rows, UnresolvedTarget, name, i);
    var j: nat :| OnlyAt(rows, OfTarget, name, j);
    var k: nat :| OnlyAt(rows, Unresolved, name, k);
    assert Matches(UnresolvedTarget, name, rows[i]);
    assert Matches(OfTarget, name, rows[i]) && Matches(Unresolved, name, rows[i]);
    assert i == j && i == k;
  }

  /** The count checks hold exactly when the history has one unresolved row, it is the target's
      only row, its checksum is the source's, and as many migrations succeeded as precede it. */
  lemma PreconditionsExact(rows: seq<Row>, target: Target, sourceChecksum: Option<string>, residue: Residue)
    ensures Preconditions(StateOf(rows, target, sourceChecksum, residue)) <==>
      && (exists i: nat :: SoleFailure(rows, target, i)) && sourceChecksum == Some(target.sourceChecksum)
      && SafeInteger(target.predecessors) && Count(rows, Successful, target.name) == target.predecessors
      && (target.guardsMediaCleanupAudit ==> residue == NO_RESIDUE)
  {
    hide Count, FirstOfTarget, ChecksumMatches, SoleFailure;
    if i: nat :| SoleFailure(rows, target, i) {
      SoleFailureCounts(rows, target, i);
    }
    if Preconditions(StateOf(rows, target, sourceChecksum, residue)) {
      var i := CountsGiveSoleFailure(rows, target);
    }
  }

  // ----- What the update does -----

  /** Exactly the target's unresolved row gained rolled_back_at and nothing else changed. */
  ghost predicate ExactlyTargetMarked(before: seq<Row>, after: seq<Row>, target: Target) {
    exists i, stamp :: MarkedAt(before, after, target, i, stamp)
  }

  ghost predicate MarkedAt(before: seq<Row>, after: seq<Row>, target: Target, i: int, stamp: int) {
    && 0 <= i < |before| && before[i].name == target.name && before[i].rolledBackAt.None?
    && after == before[i := before[i].(rolledBackAt := Some(stamp))]
  }

  lemma MarksSoleFailure(rows: seq<Row>, target: Target, i: nat, stamp: int)
    requires DistinctIds(rows) && SoleFailure(rows, target, i)
    ensures Marked(rows, target, Some(rows[i].id), stamp) == rows[i := rows[i].(rolledBackAt := Some(stamp))]
  {
    assert Matches(OfTarget, target.name, rows[i]) && Matches(Unresolved, target.name, rows[i]);
    forall j | 0 <= j < |rows| ensures Selected(rows[j], target, Some(rows[i].id)) <==> j == i {
      if j != i { assert rows[j].id != rows[i].id; }
    }
  }

  lemma {:induction false} SelectedOnce(rows: seq<Row>, target: Target, id: Option<nat>, i: nat)
    requires i < |rows| && forall j | 0 <= j < |rows| :: Selected(rows[j], target, id) <==> j == i
    ensures SelectedCount(rows, target, id) == 1
  {
    var last := |rows| - 1;
    var front := rows[..last];
    assert forall j | 0 <= j < last :: front[j] == rows[j];
    assert Selected(rows[last], target, id) <==> last == i;
    if i < last { SelectedOnce(front, target, id, i); } else { SelectedNever(front, target, id); }
  }

  lemma {:induction false} SelectedNever(rows: seq<Row>, target: Target, id: Option<nat>)
    requires forall j | 0 <= j < |rows| :: !Selected(rows[j], target, id)
    ensures SelectedCount(rows, target, id) == 0
  {
    if rows != [] { SelectedNever(rows[..|rows| - 1], target, id); }
  }

  /** Under the preconditions the UPDATE reports one row, so that check never fires. */
  lemma UpdateTouchesOneRow(rows: seq<Row>, target: Target, sourceChecksum: Option<string>, residue: Residue)
    requires DistinctIds(rows) && Preconditions(StateOf(rows, target, sourceChecksum, residue))
    ensures SelectedCount(rows, target, StateOf(rows, target, sourceChecksum, residue).targetId) == 1
  {
    hide Count, FirstOfTarget, SelectedCount;
    PreconditionsExact(rows, target, sourceChecksum, residue);
    var i: nat :| SoleFailure(rows, target, i);
    SoleFailureCounts(rows, target, i);
    assert Matches(OfTarget, target.name, rows[i]) && Matches(Unresolved, target.name, rows[i]);
    forall j | 0 <= j < |rows| ensures Selected(rows[j], target, Some(rows[i].id)) <==> j == i {
      if j != i { assert rows[j].id != rows[i].id; }
    }
    SelectedOnce(rows, target, Some(rows[i].id), i);
  }

  lemma MarkedCounts(rows: seq<Row>, target: Target, i: nat, stamp: int)
    requires SoleFailure(rows, target, i)
    ensures var after := rows[i := rows[i].(rolledBackAt := Some(stamp))];
      && Count(after, OfTarget, target.name) == Count(after, RolledBackTarget, target.name) == 1
      && Count(after, Unresolved, target.name) == Count(after, UnresolvedTarget, target.name) ==
           Count(after, FinishedTarget, target.name) == 0
      && Count(after, Successful, target.name) == Count(rows, Successful, target.name)
  {
    var row := rows[i].(rolledBackAt := Some(stamp));
    SoleFailureCounts(rows, target, i);
    assert Matches(OfTarget, target.name, rows[i]) && Matches(Unresolved, target.name, rows[i]);
    hide Count, OnlyAt, ChecksumMatches;
    CountAfterUpdate(rows, i, row, OfTarget, target.name);
    CountAfterUpdate(rows, i, row, RolledBackTarget, target.name);
    CountAfterUpdate(rows, i, row, Unresolved, target.name);
    CountAfterUpdate(rows, i, row, UnresolvedTarget, target.name);
    CountAfterUpdate(rows, i, row, FinishedTarget, target.name);
    CountAfterUpdate(rows, i, row, Successful, target.name);
  }

  /** The preconditions and the update imply the postconditions, if the source file and the
      residue read the same the second time. */
  lemma UpdateGivesPostconditions(rows: seq<Row>, target: Target, sourceChecksum: Option<string>, residue: Residue,
      stamp: int)
    requires DistinctIds(rows) && Preconditions(StateOf(rows, target, sourceChecksum, residue))
    ensures var id := StateOf(rows, target, sourceChecksum, residue).targetId;
      Postconditions(StateOf(Marked(rows, target, id, stamp), target, sourceChecksum, residue), id)
  {
    hide Count, FirstOfTarget, Marked;
    PreconditionsExact(rows, target, sourceChecksum, residue);
    var i: nat :| SoleFailure(rows, target, i);
    SoleFailureCounts(rows, target, i);
    MarksSoleFailure(rows, target, i, stamp);
    MarkedCounts(rows, target, i, stamp);
    var after := rows[i := rows[i].(rolledBackAt := Some(stamp))];
    forall j | 0 <= j < |after| ensures Matches(OfTarget, target.name, after[j]) <==> j == i {
      assert Matches(OfTarget, target.name, rows[j]) <==> j == i;
    }
    FirstIsOnly(after, target.name, i);
    forall j | 0 <= j < |after| && after[j].name == target.name ensures after[j].checksum == target.sourceChecksum {
      assert Matches(OfTarget, target.name, after[j]);
    }
    assert after[i].name == target.name by { assert Matches(OfTarget, target.name, after[i]); }
  }

  /** A commit marks exactly the target row, and that is a change. */
  lemma CommitMarksTarget(rows: seq<Row>, target: Target, s: Schedule)
    requires DistinctIds(rows) && ReachesCommit(rows, target, s)
    ensures var after := Marked(rows, target, FirstState(rows, target, s).targetId, s.stamp);
      ExactlyTargetMarked(rows, after, target) && after != rows
  {
    hide Count, FirstOfTarget, Marked, Undisturbed, Postconditions, SecondState;
    PreconditionsExact(rows, target, s.firstChecksum, s.firstResidue);
    var i: nat :| SoleFailure(rows, target, i);
    SoleFailureCounts(rows, target, i);
    MarksSoleFailure(rows, target, i, s.stamp);
    assert Matches(OfTarget, target.name, rows[i]) && Matches(Unresolved, target.name, rows[i]);
    assert MarkedAt(rows, rows[i := rows[i].(rolledBackAt := Some(s.stamp))], target, i, s.stamp);
    assert rows[i := rows[i].(rolledBackAt := Some(s.stamp))][i] != rows[i];
  }

  /** An undisturbed attempt, during which neither the source file nor the residue changes, reaches
      COMMIT exactly when the preconditions hold: the second look never objects on its own. */
  lemma UndisturbedCommitsExactlyWhenSafe(rows: seq<Row>, target: Target, s: Schedule)
    requires DistinctIds(rows) && Undisturbed(target, s)
    requires s.secondChecksum == s.firstChecksum && s.secondResidue == s.firstResidue
    ensures ReachesCommit(rows, target, s) <==> Preconditions(FirstState(rows, target, s))
  {
    hide StateOf, Preconditions, Postconditions, Undisturbed, Marked;
    if Preconditions(FirstState(rows, target, s)) {
      UpdateGivesPostconditions(rows, target, s.firstChecksum, s.firstResidue, s.stamp);
    }
  }

  /** The second look objects exactly when the source file or the residue has changed since. */
  lemma SecondLookExact(rows: seq<Row>, target: Target, s: Schedule)
    requires DistinctIds(rows) && Preconditions(FirstState(rows, target, s))
    ensures Postconditions(SecondState(rows, target, s), FirstState(rows, target, s).targetId) <==>
      s.secondChecksum == Some(target.sourceChecksum)
      && (target.guardsMediaCleanupAudit ==> s.secondResidue == NO_RESIDUE)
  {
    var id := FirstState(rows, target, s).targetId;
    UpdateGivesPostconditions(rows, target, s.firstChecksum, s.firstResidue, s.stamp);
    var marked := Marked(rows, target, id, s.stamp);
    hide Count, FirstOfTarget, Marked, ChecksumMatches;
    var first, second := StateOf(marked, target, s.firstChecksum, s.firstResidue), SecondState(rows, target, s);
    assert second == first.(sourceChecksumMatches := second.sourceChecksumMatches, residue := second.residue);
  }

  /** When the callback decides to commit, told by the history and the schedule: it is undisturbed, the
      target's row is the only unresolved one and the target's only one, with the source's checksum,
      as many migrations succeeded as precede it, and at both looks the source file reads as it
      should and no residue is found. */
  lemma CommitExact(rows: seq<Row>, target: Target, s: Schedule)
    requires DistinctIds(rows)
    ensures ReachesCommit(rows, target, s) <==>
      && Undisturbed(target, s) && (exists i: nat :: SoleFailure(rows, target, i))
      && SafeInteger(target.predecessors) && Count(rows, Successful, target.name) == target.predecessors
      && s.firstChecksum == Some(target.sourceChecksum) == s.secondChecksum
      && (target.guardsMediaCleanupAudit ==> s.firstResidue == NO_RESIDUE && s.secondResidue == NO_RESIDUE)
  {
    hide Count, StateOf, Preconditions, Postconditions, Undisturbed, SoleFailure;
    PreconditionsExact(rows, target, s.firstChecksum, s.firstResidue);
    if Preconditions(FirstState(rows, target, s)) { SecondLookExact(rows, target, s); }
  }
}
