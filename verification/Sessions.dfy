/** Refresh-token rotation, reuse detection and the account steps that revoke sessions, statement
    by statement under READ COMMITTED (auth.service.ts, user.service.ts). */
module Sessions {
  import opened Outcomes
  import opened Sequences

  const REFRESH_REUSE_GRACE_MS := 10_000
  const DELETION_DELAY_MS := 7 * 24 * 60 * 60_000
  const DAY_MS := 24 * 60 * 60_000

  /** SHA-256 of a token; distinct tokens have distinct hashes. */
  type Hash = string

  datatype Reason = Rotated | AccountInactive | RefreshReuse | LoggedOut

  datatype Session = Session(
    id: nat, userId: nat, expiresAt: int, revokedAt: Option<int>, revocationReason: Option<Reason>)

  datatype Status = Active | DeletionPending | Unavailable

  datatype User = User(status: Status, deletedAt: Option<int>)

  datatype Deletion = Deletion(userId: nat, requested: bool, scheduledAt: int)

  datatype ResetToken = ResetToken(userId: nat, expiresAt: int, usedAt: Option<int>)

  /** The committed tables, keyed by their unique columns, and what a run accumulates: which
      sessions a refresh has claimed, which session replaced which, and the login each descends
      from. Times are those the rows store. */
  datatype Store = Store(
    users: map<nat, User>,
    sessions: map<Hash, Session>,
    deletions: map<nat, Deletion>,
    resetTokens: map<Hash, ResetToken>,
    claims: seq<Hash>,
    successors: seq<(Hash, Hash)>,
    lineage: map<Hash, nat>,
    logins: nat)

  predicate Usable(users: map<nat, User>, userId: nat) {
    userId in users && users[userId].status.Active? && users[userId].deletedAt.None?
  }

  /** A hash and an id no session row has. */
  predicate Unused(sessions: map<Hash, Session>, hash: Hash, id: nat) {
    hash !in sessions && forall h | h in sessions :: sessions[h].id != id
  }

  /** AUTH_REFRESH_TOKEN_TTL_DAYS when it is an integer in range, otherwise 30. */
  function RefreshTtlDays(configured: Option<int>): (days: nat)
    ensures 1 <= days <= 90
  {
    if configured.Some? && 1 <= configured.value <= 90 then configured.value else 30
  }

  function NewSession(id: nat, userId: nat, ttlDays: nat, now: int): Session {
    Session(id, userId, now + ttlDays * DAY_MS, None, None)
  }

  /** UPDATE "UserSession" ... WHERE "userId" = ... AND "revokedAt" IS NULL. */
  function RevokeAll(sessions: map<Hash, Session>, userId: nat, now: int, reason: Option<Reason>): map<Hash, Session> {
    map h | h in sessions ::
      if sessions[h].userId == userId && sessions[h].revokedAt.None?
      then sessions[h].(revokedAt := Some(now),
                        revocationReason := if reason.Some? then reason else sessions[h].revocationReason)
      else sessions[h]
  }

  // ----- What a commit changes -----

  predicate Live(sessions: map<Hash, Session>, h: Hash) {
    h in sessions && sessions[h].revokedAt.None?
  }

  /** WHERE "tokenHash" = ... AND "revokedAt" IS NULL AND "expiresAt" > CURRENT_TIMESTAMP. */
  predicate Claimable(sessions: map<Hash, Session>, hash: Hash, now: int) {
    Live(sessions, hash) && sessions[hash].expiresAt > now
  }

  function Spend(s: Store, hash: Hash, at: int, reason: Reason): Store
    requires hash in s.sessions
  {
    s.(sessions := s.sessions[hash := s.sessions[hash].(revokedAt := Some(at), revocationReason := Some(reason))],
       claims := s.claims + [hash])
  }

  /** The presented session rotated away and its successor inserted. */
  function Issue(s: Store, hash: Hash, at: int, newHash: Hash, newId: nat, ttlDays: nat): Store
    requires hash in s.sessions
  {
    var spent := Spend(s, hash, at, Rotated);
    spent.(sessions := spent.sessions[newHash := NewSession(newId, s.sessions[hash].userId, ttlDays, at)],
           successors := s.successors + [(hash, newHash)],
           lineage := s.lineage[newHash := if hash in s.lineage then s.lineage[hash] else 0])
  }

  /** The SELECT after a failed claim: whose sessions to revoke, if the stored rotation time is ten
      seconds old or more. */
  function Inspect(s: Store, hash: Hash, now: int): Option<nat> {
    if hash in s.sessions && s.sessions[hash].revocationReason == Some(Rotated) then
      match s.sessions[hash].revokedAt
      case Some(revokedAt) =>
        if revokedAt > now - REFRESH_REUSE_GRACE_MS then None else Some(s.sessions[hash].userId)
      case None => Some(s.sessions[hash].userId)
    else None
  }

  function Login(s: Store, userId: nat, now: int, newHash: Hash, newId: nat, ttlDays: nat): Store {
    s.(sessions := s.sessions[newHash := NewSession(newId, userId, ttlDays, now)],
       lineage := s.lineage[newHash := s.logins],
       logins := s.logins + 1)
  }

  function Logout(s: Store, sid: nat, now: int): Store {
    s.(sessions := map h | h in s.sessions ::
      if s.sessions[h].id == sid && s.sessions[h].revokedAt.None?
      then s.sessions[h].(revokedAt := Some(now), revocationReason := Some(LoggedOut)) else s.sessions[h])
  }

  predicate ResetAccepted(s: Store, token: Hash, now: int) {
    && token in s.resetTokens && s.resetTokens[token].usedAt.None? && s.resetTokens[token].expiresAt > now
    && Usable(s.users, s.resetTokens[token].userId)
  }

  /** Why a statement revokes all of a user's sessions. */
  datatype Cause = ForReuse | ForReset(token: Hash)

  /** UPDATE "UserSession" ... WHERE "userId" = ... AND "revokedAt" IS NULL in progress: the rows of
      its snapshot it has still to reach, those it has locked, and the sessions that existed when it
      took the snapshot. */
  datatype Sweep = Sweep(userId: nat, cause: Cause, at: int, pending: set<Hash>, held: set<Hash>, known: set<Hash>)

  function NewSweep(sessions: map<Hash, Session>, userId: nat, cause: Cause, now: int): Sweep {
    Sweep(userId, cause, now,
      set h | h in sessions && sessions[h].userId == userId && sessions[h].revokedAt.None?, {}, sessions.Keys)
  }

  function RevokeHeld(sessions: map<Hash, Session>, sweep: Sweep): map<Hash, Session> {
    map h | h in sessions ::
      if h in sweep.held then
        sessions[h].(revokedAt := Some(sweep.at),
                     revocationReason :=
                       if sweep.cause.ForReuse? then Some(RefreshReuse) else sessions[h].revocationReason)
      else sessions[h]
  }

  /** The reset also marks its token used and deletes the user's unused ones. */
  function SpendTokens(tokens: map<Hash, ResetToken>, sweep: Sweep): map<Hash, ResetToken> {
    match sweep.cause
    case ForReuse => tokens
    case ForReset(token) =>
      var used := if token in tokens then tokens[token := tokens[token].(usedAt := Some(sweep.at))] else tokens;
      map t | t in used && !(used[t].userId == sweep.userId && used[t].usedAt.None?) :: used[t]
  }

  function CommitSweep(s: Store, sweep: Sweep): Store {
    s.(sessions := RevokeHeld(s.sessions, sweep), resetTokens := SpendTokens(s.resetTokens, sweep))
  }

  predicate PendingDeletion(s: Store, userId: nat) {
    exists d :: d in s.deletions && s.deletions[d].userId == userId && s.deletions[d].requested
  }

  datatype DeletionError = UserNotFound

  /** The transaction locks the User row FOR UPDATE, which no insert of a session passes, and waits
      for every session row another transaction has locked; so it is one step. */
  function RequestAccountDeletion(s: Store, userId: nat, now: int, requestId: nat): Result<Store, DeletionError> {
    if userId !in s.users then Failure(UserNotFound)
    else if PendingDeletion(s, userId) then Success(s)
    else if !Usable(s.users, userId) then Failure(UserNotFound)
    else Success(s.(
      deletions := s.deletions[requestId := Deletion(userId, true, now + DELETION_DELAY_MS)],
      users := s.users[userId := User(DeletionPending, Some(now))],
      sessions := RevokeAll(s.sessions, userId, now, None),
      resetTokens := map t | t in s.resetTokens
        && !(s.resetTokens[t].userId == userId && s.resetTokens[t].usedAt.None?) :: s.resetTokens[t]))
  }

  predicate Cancellable(s: Store, userId: nat, requestId: nat, now: int) {
    && requestId in s.deletions && s.deletions[requestId].userId == userId
    && s.deletions[requestId].requested && s.deletions[requestId].scheduledAt > now
  }

  /** The transaction by which a login within the delay takes a deletion request back. */
  function CancelDeletion(s: Store, userId: nat, requestId: nat, now: int): Store {
    if !Cancellable(s, userId, requestId, now) then s else
    s.(deletions := s.deletions[requestId := s.deletions[requestId].(requested := false)],
       users := if userId in s.users && s.users[userId].status.DeletionPending?
                then s.users[userId := User(Active, None)] else s.users)
  }

  // ----- Transactions in flight -----

  /** Where a refresh or a user-wide revocation stands between its statements. */
  datatype Phase =
    | Claimed(hash: Hash, at: int)
    | Accepted(hash: Hash, at: int)
    | Rejected(hash: Hash, at: int)
    | AfterFailedClaim(hash: Hash)
    | FoundReuse(userId: nat)
    | Sweeping(sweep: Sweep)

  /** The committed tables, the calls in flight, and the session rows their transactions lock. */
  datatype System = System(store: Store, calls: map<nat, Phase>, locks: map<Hash, nat>)

  datatype Step =
    | LoginStep(userId: nat, newHash: Hash, newId: nat, ttlDays: nat)
    | ClaimStep(call: nat, hash: Hash)
    | ReadUserStep(call: nat)
    | IssueStep(call: nat, newHash: Hash, newId: nat, ttlDays: nat)
    | RejectStep(call: nat)
    | InspectStep(call: nat)
    | SweepStep(call: nat)
    | ResetStep(call: nat, token: Hash)
    | RevokeRowStep(call: nat, hash: Hash)
    | FinishSweepStep(call: nat)
    | RollbackStep(call: nat)
    | LogoutStep(sid: nat)
    | ResetIssued(token: Hash, resetToken: ResetToken)
    | DeletionStep(userId: nat, requestId: nat)
    | CancelStep(userId: nat, requestId: nat)
    | UserChanged(userId: nat, user: User)

  /** A step and the database clock at it. */
  datatype Event = Event(now: int, step: Step)

  predicate Resetting(calls: map<nat, Phase>, userId: nat) {
    exists c :: c in calls && calls[c].Sweeping? && calls[c].sweep.cause.ForReset? && calls[c].sweep.userId == userId
  }

  /** A step whose rows others have locked waits until they are released. */
  predicate Enabled(s: System, step: Step) {
    match step
    case LoginStep(_, newHash, newId, _) => Unused(s.store.sessions, newHash, newId)
    case ClaimStep(call, hash) => call !in s.calls && hash !in s.locks
    case ReadUserStep(call) => call in s.calls && s.calls[call].Claimed? && s.calls[call].hash in s.store.sessions
    case IssueStep(call, newHash, newId, _) =>
      && call in s.calls && s.calls[call].Accepted? && s.calls[call].hash in s.store.sessions
      && Unused(s.store.sessions, newHash, newId)
    case RejectStep(call) => call in s.calls && s.calls[call].Rejected? && s.calls[call].hash in s.store.sessions
    case InspectStep(call) => call in s.calls && s.calls[call].AfterFailedClaim?
    case SweepStep(call) => call in s.calls && s.calls[call].FoundReuse?
    case ResetStep(call, token) =>
      call !in s.calls && (token in s.store.resetTokens ==> !Resetting(s.calls, s.store.resetTokens[token].userId))
    case RevokeRowStep(call, hash) =>
      call in s.calls && s.calls[call].Sweeping? && hash in s.calls[call].sweep.pending && hash !in s.locks
    case FinishSweepStep(call) => call in s.calls && s.calls[call].Sweeping? && s.calls[call].sweep.pending == {}
    case RollbackStep(call) => call in s.calls
    case LogoutStep(sid) => forall h | h in s.locks && h in s.store.sessions :: s.store.sessions[h].id != sid
    case ResetIssued(token, _) => token !in s.store.resetTokens
    case DeletionStep(userId, requestId) =>
      && requestId !in s.store.deletions && !Resetting(s.calls, userId)
      && forall h | h in s.locks && h in s.store.sessions :: s.store.sessions[h].userId != userId
    case _ => true
  }

  function Release(locks: map<Hash, nat>, call: nat): map<Hash, nat> {
    map h | h in locks && locks[h] != call :: locks[h]
  }

  /** The call ends, leaving this store and releasing its locks. */
  function End(s: System, call: nat, store: Store): System {
    System(store, s.calls - {call}, Release(s.locks, call))
  }

  /** A row of the snapshot reached: still unrevoked it is locked, otherwise passed over. */
  function ReachRow(s: System, call: nat, hash: Hash): System
    requires call in s.calls && s.calls[call].Sweeping?
  {
    var sweep := s.calls[call].sweep;
    var passed := sweep.(pending := sweep.pending - {hash});
    if Live(s.store.sessions, hash)
    then s.(calls := s.calls[call := Sweeping(passed.(held := sweep.held + {hash}))], locks := s.locks[hash := call])
    else s.(calls := s.calls[call := Sweeping(passed)])
  }

  function Next(s: System, e: Event): System
    requires Enabled(s, e.step)
  {
    match e.step
    case LoginStep(userId, newHash, newId, ttlDays) =>
      s.(store := Login(s.store, userId, e.now, newHash, newId, ttlDays))
    case ClaimStep(call, hash) =>
      if Claimable(s.store.sessions, hash, e.now)
      then s.(calls := s.calls[call := Claimed(hash, e.now)], locks := s.locks[hash := call])
      else s.(calls := s.calls[call := AfterFailedClaim(hash)])
    case ReadUserStep(call) =>
      var hash, at := s.calls[call].hash, s.calls[call].at;
      s.(calls := s.calls[call :=
        if Usable(s.store.users, s.store.sessions[hash].userId) then Accepted(hash, at) else Rejected(hash, at)])
    case IssueStep(call, newHash, newId, ttlDays) =>
      End(s, call, Issue(s.store, s.calls[call].hash, s.calls[call].at, newHash, newId, ttlDays))
    case RejectStep(call) => End(s, call, Spend(s.store, s.calls[call].hash, s.calls[call].at, AccountInactive))
    case InspectStep(call) =>
      (match Inspect(s.store, s.calls[call].hash, e.now)
       case Some(userId) => s.(calls := s.calls[call := FoundReuse(userId)])
       case None => s.(calls := s.calls - {call}))
    case SweepStep(call) =>
      s.(calls := s.calls[call := Sweeping(NewSweep(s.store.sessions, s.calls[call].userId, ForReuse, e.now))])
    case ResetStep(call, token) =>
      if !ResetAccepted(s.store, token, e.now) then s else
      var userId := s.store.resetTokens[token].userId;
      s.(calls := s.calls[call := Sweeping(NewSweep(s.store.sessions, userId, ForReset(token), e.now))])
    case RevokeRowStep(call, hash) => ReachRow(s, call, hash)
    case FinishSweepStep(call) => End(s, call, CommitSweep(s.store, s.calls[call].sweep))
    case RollbackStep(call) => End(s, call, s.store)
    case LogoutStep(sid) => s.(store := Logout(s.store, sid, e.now))
    case ResetIssued(token, resetToken) =>
      s.(store := s.store.(resetTokens := s.store.resetTokens[token := resetToken]))
    case DeletionStep(userId, requestId) =>
      (match RequestAccountDeletion(s.store, userId, e.now, requestId)
       case Success(store) => s.(store := store)
       case Failure(_) => s)
    case CancelStep(userId, requestId) => s.(store := CancelDeletion(s.store, userId, requestId, e.now))
    case UserChanged(userId, user) => s.(store := s.store.(users := s.store.users[userId := user]))
  }

  lemma NextIssue(s: System, e: Event)
    requires Enabled(s, e.step) && e.step.IssueStep?
    ensures var call := e.step.call;
      Next(s, e) == End(s, call,
        Issue(s.store, s.calls[call].hash, s.calls[call].at, e.step.newHash, e.step.newId, e.step.ttlDays))
  {
    hide Issue, End, Unused;
  }

  lemma NextDeletion(s: System, e: Event)
    requires Enabled(s, e.step) && e.step.DeletionStep?
    ensures Next(s, e) == (
      match RequestAccountDeletion(s.store, e.step.userId, e.now, e.step.requestId)
      case Success(store) => s.(store := store)
      case Failure(_) => s)
  {
    hide RequestAccountDeletion;
  }

  class AuthDatabase {
    var users: map<nat, User>
    var sessions: map<Hash, Session>
    var deletions: map<nat, Deletion>
    var resetTokens: map<Hash, ResetToken>
    var calls: map<nat, Phase>
    var locks: map<Hash, nat>
    ghost var claims: seq<Hash>
    ghost var successors: seq<(Hash, Hash)>
    ghost var lineage: map<Hash, nat>
    ghost var logins: nat

    ghost function Contents(): System
      reads this
    {
      System(Store(users, sessions, deletions, resetTokens, claims, successors, lineage, logins), calls, locks)
    }

    /** The UPDATE that claims the presented session. */
    method ClaimSession(call: nat, hash: Hash, now: int) returns (claimed: bool)
      requires Enabled(Contents(), ClaimStep(call, hash))
      modifies this
      ensures Contents() == Next(old(Contents()), Event(now, ClaimStep(call, hash)))
      ensures claimed == Claimable(old(sessions), hash, now)
    {
      claimed := hash in sessions && sessions[hash].revokedAt.None? && sessions[hash].expiresAt > now;
      if claimed {
        calls := calls[call := Claimed(hash, now)];
        locks := locks[hash := call];
      } else {
        calls := calls[call := AfterFailedClaim(hash)];
      }
    }

    method ReadUser(call: nat, now: int) returns (usable: bool)
      requires Enabled(Contents(), ReadUserStep(call))
      modifies this
      ensures Contents() == Next(old(Contents()), Event(now, ReadUserStep(call)))
      ensures usable == calls[call].Accepted?
    {
      var hash, at := calls[call].hash, calls[call].at;
      var userId := sessions[hash].userId;
      usable := userId in users && users[userId].status.Active? && users[userId].deletedAt.None?;
      calls := calls[call := if usable then Accepted(hash, at) else Rejected(hash, at)];
    }

    /** The presented session revoked for good. */
    method SpendSession(hash: Hash, at: int, reason: Reason)
      requires hash in sessions
      modifies `sessions, `claims
      ensures Contents().store == Spend(old(Contents()).store, hash, at, reason)
    {
      sessions := sessions[hash := sessions[hash].(revokedAt := Some(at), revocationReason := Some(reason))];
      claims := claims + [hash];
    }

    method InsertSuccessor(hash: Hash, at: int, newHash: Hash, newId: nat, ttlDays: nat)
      requires hash in sessions
      modifies `sessions, `claims, `successors, `lineage
      ensures Contents().store == Issue(old(Contents()).store, hash, at, newHash, newId, ttlDays)
    {
      var userId := sessions[hash].userId;
      SpendSession(hash, at, Rotated);
      hide Spend;
      sessions := sessions[newHash := NewSession(newId, userId, ttlDays, at)];
      successors := successors + [(hash, newHash)];
      lineage := lineage[newHash := if hash in lineage then lineage[hash] else 0];
    }

    /** The INSERT of the successor and the COMMIT. */
    method IssueSuccessor(call: nat, newHash: Hash, newId: nat, ttlDays: nat, now: int)
      requires Enabled(Contents(), IssueStep(call, newHash, newId, ttlDays))
      modifies this
      ensures Contents() == Next(old(Contents()), Event(now, IssueStep(call, newHash, newId, ttlDays)))
    {
      NextIssue(Contents(), Event(now, IssueStep(call, newHash, newId, ttlDays)));
      hide Next, Unused, Release, Issue;
      InsertSuccessor(calls[call].hash, calls[call].at, newHash, newId, ttlDays);
      EndCall(call);
    }

    /** The UPDATE of the reason for an inactive account, and the COMMIT. */
    method RejectInactive(call: nat, now: int)
      requires Enabled(Contents(), RejectStep(call))
      modifies this
      ensures Contents() == Next(old(Contents()), Event(now, RejectStep(call)))
    {
      SpendSession(calls[call].hash, calls[call].at, AccountInactive);
      EndCall(call);
    }

    method EndCall(call: nat)
      modifies `calls, `locks
      ensures calls == old(calls) - {call} && locks == Release(old(locks), call)
    {
      calls := calls - {call};
      locks := map h | h in locks && locks[h] != call :: locks[h];
    }

    method InspectRotated(call: nat, now: int) returns (reused: Option<nat>)
      requires Enabled(Contents(), InspectStep(call))
      modifies this
      ensures Contents() == Next(old(Contents()), Event(now, InspectStep(call)))
      ensures reused == Inspect(old(Contents()).store, old(calls[call].hash), now)
    {
      var hash := calls[call].hash;
      reused := None;
      if hash in sessions && sessions[hash].revocationReason == Some(Rotated) {
        var revokedAt := sessions[hash].revokedAt;
        if revokedAt.None? || revokedAt.value <= now - REFRESH_REUSE_GRACE_MS { reused := Some(sessions[hash].userId); }
      }
      calls := if reused.Some? then calls[call := FoundReuse(reused.value)] else calls - {call};
    }

    /** The reuse UPDATE takes its snapshot. */
    method BeginReuseRevocation(call: nat, now: int)
      requires Enabled(Contents(), SweepStep(call))
      modifies this
      ensures Contents() == Next(old(Contents()), Event(now, SweepStep(call)))
    {
      calls := calls[call := Sweeping(NewSweep(sessions, calls[call].userId, ForReuse, now))];
    }

    /** confirmPasswordReset up to the snapshot of its session UPDATE; a refusal rolls back. */
    method BeginReset(call: nat, token: Hash, now: int) returns (accepted: bool)
      requires Enabled(Contents(), ResetStep(call, token))
      modifies this
      ensures Contents() == Next(old(Contents()), Event(now, ResetStep(call, token)))
      ensures accepted == ResetAccepted(old(Contents()).store, token, now)
    {
      if token !in resetTokens || resetTokens[token].usedAt.Some? || resetTokens[token].expiresAt <= now {
        return false;
      }
      var userId := resetTokens[token].userId;
      if !Usable(users, userId) { return false; }
      calls := calls[call := Sweeping(NewSweep(sessions, userId, ForReset(token), now))];
      accepted := true;
    }

    method RevokeRow(call: nat, hash: Hash, now: int)
      requires Enabled(Contents(), RevokeRowStep(call, hash))
      modifies this
      ensures Contents() == Next(old(Contents()), Event(now, RevokeRowStep(call, hash)))
    {
      var sweep := calls[call].sweep;
      sweep := sweep.(pending := sweep.pending - {hash});
      if Live(sessions, hash) {
        sweep := sweep.(held := sweep.held + {hash});
        locks := locks[hash := call];
      }
      calls := calls[call := Sweeping(sweep)];
    }

    /** The UPDATE is through: commit it, with the token changes of a reset. */
    method FinishRevocation(call: nat, now: int)
      requires Enabled(Contents(), FinishSweepStep(call))
      modifies this
      ensures Contents() == Next(old(Contents()), Event(now, FinishSweepStep(call)))
    {
      var sweep := calls[call].sweep;
      sessions := RevokeHeld(sessions, sweep);
      resetTokens := SpendTokens(resetTokens, sweep);
      EndCall(call);
    }

    method Rollback(call: nat, now: int)
      requires Enabled(Contents(), RollbackStep(call))
      modifies this
      ensures Contents() == Next(old(Contents()), Event(now, RollbackStep(call)))
    {
      EndCall(call);
    }

    method CreateSession(userId: nat, now: int, newHash: Hash, newId: nat, ttlDays: nat)
      requires Enabled(Contents(), LoginStep(userId, newHash, newId, ttlDays))
      modifies this
      ensures Contents() == Next(old(Contents()), Event(now, LoginStep(userId, newHash, newId, ttlDays)))
    {
      sessions := sessions[newHash := NewSession(newId, userId, ttlDays, now)];
      lineage := lineage[newHash := logins];
      logins := logins + 1;
    }

    method LogoutSession(sid: nat, now: int)
      requires Enabled(Contents(), LogoutStep(sid))
      modifies this
      ensures Contents() == Next(old(Contents()), Event(now, LogoutStep(sid)))
    {
      sessions := map h | h in sessions ::
        if sessions[h].id == sid && sessions[h].revokedAt.None?
        then sessions[h].(revokedAt := Some(now), revocationReason := Some(LoggedOut)) else sessions[h];
    }

    method RequestDeletion(userId: nat, now: int, requestId: nat) returns (r: Result<(), DeletionError>)
      requires Enabled(Contents(), DeletionStep(userId, requestId))
      modifies this
      ensures Contents() == Next(old(Contents()), Event(now, DeletionStep(userId, requestId)))
      ensures r.Success? <==> RequestAccountDeletion(old(Contents()).store, userId, now, requestId).Success?
    {
      ghost var before := Contents();
      NextDeletion(before, Event(now, DeletionStep(userId, requestId)));
      hide Next, RevokeAll;
      if userId !in users { return Failure(UserNotFound); }
      if exists d | d in deletions :: deletions[d].userId == userId && deletions[d].requested { return Success(()); }
      if !Usable(users, userId) { return Failure(UserNotFound); }
      deletions := deletions[requestId := Deletion(userId, true, now + DELETION_DELAY_MS)];
      users := users[userId := User(DeletionPending, Some(now))];
      sessions := RevokeAll(sessions, userId, now, None);
      resetTokens := map t | t in resetTokens
        && !(resetTokens[t].userId == userId && resetTokens[t].usedAt.None?) :: resetTokens[t];
      r := Success(());
    }

    method CancelDeletionOnLogin(userId: nat, requestId: nat, now: int) returns (cancelled: bool)
      modifies this
      ensures Contents() == Next(old(Contents()), Event(now, CancelStep(userId, requestId)))
      ensures cancelled == Cancellable(old(Contents()).store, userId, requestId, now)
    {
      if requestId !in deletions || deletions[requestId].userId != userId
         || !deletions[requestId].requested || deletions[requestId].scheduledAt <= now { return false; }
      deletions := deletions[requestId := deletions[requestId].(requested := false)];
      if userId in users && users[userId].status.DeletionPending? { users := users[userId := User(Active, None)]; }
      cancelled := true;
    }
  }

  // ----- Runs -----

  ghost predicate Run(s: System, events: seq<Event>, s': System)
    decreases |events|
  {
    if events == [] then s' == s
    else Enabled(s, events[0].step) && Run(Next(s, events[0]), events[1..], s')
  }

  ghost predicate Initial(s: System) {
    && s.store.sessions == map[] && s.store.claims == [] && s.store.successors == []
    && s.store.lineage == map[] && s.store.logins == 0
    && s.calls == map[] && s.locks == map[]
  }

  // ----- Invariant of the committed tables -----

  ghost predicate RevocationRecorded(sessions: map<Hash, Session>) {
    forall h | h in sessions && sessions[h].revocationReason.Some? :: sessions[h].revokedAt.Some?
  }

  /** Claimed sessions are distinct and revoked, so none can be claimed again. */
  ghost predicate ClaimsOnce(claims: seq<Hash>, sessions: map<Hash, Session>) {
    && NoRepeats(claims)
    && forall h | h in claims :: h in sessions && sessions[h].revokedAt.Some?
  }

  ghost predicate SuccessorsOnce(successors: seq<(Hash, Hash)>, claims: seq<Hash>, known: set<Hash>) {
    && (forall i | 0 <= i < |successors| :: successors[i].0 in claims && successors[i].1 in known)
    && (forall i, j | 0 <= i < j < |successors| ::
         successors[i].0 != successors[j].0 && successors[i].1 != successors[j].1)
  }

  /** Every login lineage has at most one unrevoked session. */
  ghost predicate OneLivePerLineage(lineage: map<Hash, nat>, sessions: map<Hash, Session>, logins: nat) {
    && lineage.Keys == sessions.Keys
    && (forall h | h in lineage :: lineage[h] < logins)
    && (forall a, b | Live(sessions, a) && Live(sessions, b) && lineage[a] == lineage[b] :: a == b)
  }

  ghost predicate StoreInvariant(s: Store) {
    && RevocationRecorded(s.sessions)
    && ClaimsOnce(s.claims, s.sessions)
    && SuccessorsOnce(s.successors, s.claims, s.sessions.Keys)
    && OneLivePerLineage(s.lineage, s.sessions, s.logins)
  }

  /** The same sessions, some more of them revoked. */
  ghost predicate OnlyRevokes(before: map<Hash, Session>, after: map<Hash, Session>) {
    && before.Keys == after.Keys
    && (forall h | h in before :: after[h] == before[h] || (before[h].revokedAt.None? && after[h].revokedAt.Some?))
  }

  lemma RevokingKeepsInvariant(s: Store, after: map<Hash, Session>)
    requires StoreInvariant(s) && OnlyRevokes(s.sessions, after)
    ensures StoreInvariant(s.(sessions := after))
  {
    hide SuccessorsOnce;
    RevokingKeepsLineage(s.lineage, s.sessions, s.logins, after);
  }

  lemma RevokingKeepsLineage(
    lineage: map<Hash, nat>, before: map<Hash, Session>, logins: nat, after: map<Hash, Session>)
    requires OneLivePerLineage(lineage, before, logins) && OnlyRevokes(before, after)
    ensures OneLivePerLineage(lineage, after, logins)
  {
    forall a, b | Live(after, a) && Live(after, b) && lineage[a] == lineage[b] ensures a == b {
      assert Live(before, a) && Live(before, b);
    }
  }

  lemma RevokeAllOnlyRevokes(sessions: map<Hash, Session>, userId: nat, now: int, reason: Option<Reason>)
    ensures OnlyRevokes(sessions, RevokeAll(sessions, userId, now, reason))
  {
  }

  lemma LogoutOnlyRevokes(s: Store, sid: nat, now: int)
    ensures OnlyRevokes(s.sessions, Logout(s, sid, now).sessions)
  {
  }

  /** A new session whose lineage has no other live session. */
  lemma NewSessionKeepsLineage(
    lineage: map<Hash, nat>, sessions: map<Hash, Session>, logins: nat, hash: Hash, login: nat, session: Session)
    requires OneLivePerLineage(lineage, sessions, logins) && hash !in sessions
    requires forall h | Live(sessions, h) :: lineage[h] != login
    ensures OneLivePerLineage(lineage[hash := login], sessions[hash := session],
      if login < logins then logins else login + 1)
  {
    var more, all := lineage[hash := login], sessions[hash := session];
    assert more.Keys == all.Keys;
    forall a, b | Live(all, a) && Live(all, b) && more[a] == more[b] ensures a == b {
      if a != hash { assert Live(sessions, a); }
      if b != hash { assert Live(sessions, b); }
    }
  }

  lemma LoginKeepsInvariant(s: Store, userId: nat, now: int, newHash: Hash, newId: nat, ttlDays: nat)
    requires StoreInvariant(s) && Unused(s.sessions, newHash, newId)
    ensures StoreInvariant(Login(s, userId, now, newHash, newId, ttlDays))
  {
    hide SuccessorsOnce, ClaimsOnce, RevocationRecorded;
    var session := NewSession(newId, userId, ttlDays, now);
    NewSessionKeepsLineage(s.lineage, s.sessions, s.logins, newHash, s.logins, session);
    NewSessionKeepsRest(s, newHash, session, now);
  }

  lemma NewSessionKeepsRest(s: Store, newHash: Hash, session: Session, now: int)
    requires RevocationRecorded(s.sessions) && ClaimsOnce(s.claims, s.sessions)
    requires SuccessorsOnce(s.successors, s.claims, s.sessions.Keys)
    requires newHash !in s.sessions && (session.revocationReason.Some? ==> session.revokedAt.Some?)
    ensures var all := s.sessions[newHash := session];
      RevocationRecorded(all) && ClaimsOnce(s.claims, all) && SuccessorsOnce(s.successors, s.claims, all.Keys)
  {
  }

  /** Revoking the presented session and recording the claim. */
  lemma RecordClaim(s: Store, hash: Hash, now: int, reason: Reason)
    requires StoreInvariant(s) && hash in s.sessions && s.sessions[hash].revokedAt.None?
    ensures var revoked := s.sessions[hash :=
        s.sessions[hash].(revokedAt := Some(now), revocationReason := Some(reason))];
      StoreInvariant(s.(sessions := revoked, claims := s.claims + [hash]))
  {
    hide OneLivePerLineage;
    var revoked := s.sessions[hash := s.sessions[hash].(revokedAt := Some(now), revocationReason := Some(reason))];
    RevokingKeepsLineage(s.lineage, s.sessions, s.logins, revoked);
    RevokingKeepsInvariant(s, revoked);
    MoreClaims(s.claims, s.successors, s.sessions, revoked, hash);
  }

  lemma MoreClaims(
    claims: seq<Hash>, successors: seq<(Hash, Hash)>, sessions: map<Hash, Session>, revoked: map<Hash, Session>,
    hash: Hash)
    requires ClaimsOnce(claims, sessions) && ClaimsOnce(claims, revoked)
    requires SuccessorsOnce(successors, claims, revoked.Keys)
    requires Live(sessions, hash) && hash in revoked && revoked[hash].revokedAt.Some?
    ensures ClaimsOnce(claims + [hash], revoked) && SuccessorsOnce(successors, claims + [hash], revoked.Keys)
  {
    assert hash !in claims;
  }

  lemma RecordSuccessor(successors: seq<(Hash, Hash)>, claims: seq<Hash>, known: set<Hash>, hash: Hash, newHash: Hash)
    requires SuccessorsOnce(successors, claims, known) && hash !in claims && newHash !in known
    ensures SuccessorsOnce(successors + [(hash, newHash)], claims + [hash], known + {newHash})
  {
  }

  lemma IssueKeepsInvariant(s: Store, hash: Hash, at: int, newHash: Hash, newId: nat, ttlDays: nat)
    requires StoreInvariant(s) && Unused(s.sessions, newHash, newId) && Live(s.sessions, hash)
    ensures StoreInvariant(Issue(s, hash, at, newHash, newId, ttlDays))
  {
    hide SuccessorsOnce, ClaimsOnce, RevocationRecorded;
    UnclaimedWhileLive(s, hash);
    RecordClaim(s, hash, at, Rotated);
    var claimed := Spend(s, hash, at, Rotated);
    var rotated := claimed.sessions;
    var replacement := NewSession(newId, s.sessions[hash].userId, ttlDays, at);
    forall h | Live(rotated, h) ensures s.lineage[h] != s.lineage[hash] {
      assert Live(s.sessions, h) && Live(s.sessions, hash) && h != hash;
    }
    NewSessionKeepsLineage(s.lineage, rotated, s.logins, newHash, s.lineage[hash], replacement);
    NewSessionKeepsRest(claimed, newHash, replacement, at);
    RecordSuccessor(s.successors, s.claims, s.sessions.Keys, hash, newHash);
    assert rotated[newHash := replacement].Keys == s.sessions.Keys + {newHash};
  }

  lemma UnclaimedWhileLive(s: Store, hash: Hash)
    requires ClaimsOnce(s.claims, s.sessions) && Live(s.sessions, hash)
    ensures hash !in s.claims
  {
  }

  lemma SameSessionsKeepInvariant(s: Store, s': Store)
    requires StoreInvariant(s)
    requires s'.sessions == s.sessions && s'.claims == s.claims
    requires s'.successors == s.successors && s'.lineage == s.lineage && s'.logins == s.logins
    ensures StoreInvariant(s')
  {
  }

  // ----- Invariant of the locks -----

  predicate Holds(phase: Phase, h: Hash) {
    match phase
    case Claimed(hash, _) => h == hash
    case Accepted(hash, _) => h == hash
    case Rejected(hash, _) => h == hash
    case Sweeping(sweep) => h in sweep.held
    case _ => false
  }

  /** A row is locked exactly while a call holds it, and a locked row is unrevoked. */
  ghost predicate LocksSound(calls: map<nat, Phase>, locks: map<Hash, nat>, sessions: map<Hash, Session>) {
    && (forall h | h in locks :: locks[h] in calls && Holds(calls[locks[h]], h) && Live(sessions, h))
    && (forall c, h | c in calls && Holds(calls[c], h) :: h in locks && locks[h] == c)
  }

  /** Of the sessions known at its snapshot, those of its user are pending, held or revoked. */
  ghost predicate SweepSound(sweep: Sweep, sessions: map<Hash, Session>) {
    && sweep.known <= sessions.Keys && sweep.held <= sweep.known && sweep.pending <= sweep.known
    && (forall h | h in sweep.held || h in sweep.pending :: sessions[h].userId == sweep.userId)
    && (forall h | h in sweep.known && sessions[h].userId == sweep.userId && sessions[h].revokedAt.None? ::
          h in sweep.pending || h in sweep.held)
  }

  ghost predicate SweepsSound(calls: map<nat, Phase>, sessions: map<Hash, Session>) {
    forall c | c in calls && calls[c].Sweeping? :: SweepSound(calls[c].sweep, sessions)
  }

  ghost predicate Invariant(s: System) {
    && StoreInvariant(s.store) && LocksSound(s.calls, s.locks, s.store.sessions)
    && SweepsSound(s.calls, s.store.sessions)
  }

  /** Sessions are never dropped or handed to another user, and revoked ones never change. */
  ghost predicate Advances(before: map<Hash, Session>, after: map<Hash, Session>) {
    forall h | h in before ::
      && h in after && after[h].userId == before[h].userId && after[h].id == before[h].id
      && after[h].expiresAt == before[h].expiresAt
      && (before[h].revokedAt.Some? ==> after[h] == before[h])
  }

  lemma SweepStaysSound(sweep: Sweep, before: map<Hash, Session>, after: map<Hash, Session>)
    requires SweepSound(sweep, before) && Advances(before, after)
    ensures SweepSound(sweep, after)
  {
  }

  lemma SweepsStaySound(calls: map<nat, Phase>, before: map<Hash, Session>, calls': map<nat, Phase>,
      after: map<Hash, Session>)
    requires SweepsSound(calls, before) && Advances(before, after)
    requires forall c | c in calls' && calls'[c].Sweeping? :: c in calls && calls[c] == calls'[c]
    ensures SweepsSound(calls', after)
  {
    hide SweepSound, Advances;
    forall c | c in calls' && calls'[c].Sweeping? ensures SweepSound(calls'[c].sweep, after) {
      SweepStaysSound(calls[c].sweep, before, after);
    }
  }

  lemma LocksAfterEnd(calls: map<nat, Phase>, locks: map<Hash, nat>, before: map<Hash, Session>,
      after: map<Hash, Session>, call: nat)
    requires LocksSound(calls, locks, before)
    requires forall h | h in locks && locks[h] != call :: Live(after, h)
    ensures LocksSound(calls - {call}, Release(locks, call), after)
  {
  }

  lemma LocksAfterChange(calls: map<nat, Phase>, locks: map<Hash, nat>, before: map<Hash, Session>,
      after: map<Hash, Session>)
    requires LocksSound(calls, locks, before) && forall h | h in locks :: Live(after, h)
    ensures LocksSound(calls, locks, after)
  {
  }

  /** A call moves on holding what it held, or one more free row. */
  lemma LocksAfterMove(calls: map<nat, Phase>, locks: map<Hash, nat>, sessions: map<Hash, Session>, call: nat,
      phase: Phase, more: Option<Hash>)
    requires LocksSound(calls, locks, sessions)
    requires more.Some? ==> more.value !in locks && Live(sessions, more.value)
    requires forall h :: Holds(phase, h) <==> ((call in calls && Holds(calls[call], h)) || more == Some(h))
    ensures LocksSound(calls[call := phase], if more.Some? then locks[more.value := call] else locks, sessions)
  {
  }

  lemma ClaimKeepsSystem(s: System, e: Event)
    requires Invariant(s) && Enabled(s, e.step) && e.step.ClaimStep?
    ensures Invariant(Next(s, e)) && Advances(s.store.sessions, Next(s, e).store.sessions)
  {
    hide StoreInvariant, SweepSound;
    var call, hash := e.step.call, e.step.hash;
    var sessions := s.store.sessions;
    if Claimable(sessions, hash, e.now) {
      LocksAfterMove(s.calls, s.locks, sessions, call, Claimed(hash, e.now), Some(hash));
    } else {
      LocksAfterMove(s.calls, s.locks, sessions, call, AfterFailedClaim(hash), None);
    }
    hide LocksSound;
    SweepsStaySound(s.calls, sessions, Next(s, e).calls, sessions);
  }

  lemma MoveKeepsSystem(s: System, e: Event)
    requires Invariant(s) && Enabled(s, e.step) && (e.step.ReadUserStep? || e.step.InspectStep?)
    ensures Invariant(Next(s, e)) && Advances(s.store.sessions, Next(s, e).store.sessions)
  {
    hide StoreInvariant, SweepSound, Inspect;
    var call := e.step.call;
    var sessions, next := s.store.sessions, Next(s, e);
    if call in next.calls {
      LocksAfterMove(s.calls, s.locks, sessions, call, next.calls[call], None);
      assert next.calls == s.calls[call := next.calls[call]];
    } else {
      LocksAfterEnd(s.calls, s.locks, sessions, sessions, call);
      NothingHeld(s, call);
    }
    hide LocksSound;
    SweepsStaySound(s.calls, sessions, next.calls, sessions);
  }

  lemma NothingHeld(s: System, call: nat)
    requires LocksSound(s.calls, s.locks, s.store.sessions) && call in s.calls
    requires forall h :: !Holds(s.calls[call], h)
    ensures Release(s.locks, call) == s.locks
  {
    assert forall h | h in s.locks :: s.locks[h] != call;
  }

  lemma SnapshotSound(sessions: map<Hash, Session>, userId: nat, cause: Cause, now: int)
    ensures SweepSound(NewSweep(sessions, userId, cause, now), sessions)
  {
  }

  lemma SnapshotKeepsSystem(s: System, e: Event)
    requires Invariant(s) && Enabled(s, e.step) && (e.step.SweepStep? || e.step.ResetStep?)
    ensures Invariant(Next(s, e)) && Advances(s.store.sessions, Next(s, e).store.sessions)
  {
    hide StoreInvariant, SweepSound;
    var call := e.step.call;
    var sessions, next := s.store.sessions, Next(s, e);
    if next != s {
      var sweep := next.calls[call].sweep;
      assert next.calls == s.calls[call := Sweeping(sweep)]
        && sweep == NewSweep(sessions, sweep.userId, sweep.cause, sweep.at);
      SnapshotSound(sessions, sweep.userId, sweep.cause, sweep.at);
      LocksAfterMove(s.calls, s.locks, sessions, call, Sweeping(sweep), None);
    }
  }

  lemma ReachKeepsSweep(sweep: Sweep, sessions: map<Hash, Session>, hash: Hash)
    requires SweepSound(sweep, sessions) && hash in sweep.pending
    ensures var passed := sweep.(pending := sweep.pending - {hash});
      SweepSound(if Live(sessions, hash)
                 then passed.(held := sweep.held + {hash}) else passed, sessions)
  {
  }

  lemma ReachKeepsSystem(s: System, e: Event)
    requires Invariant(s) && Enabled(s, e.step) && e.step.RevokeRowStep?
    ensures Invariant(Next(s, e)) && Advances(s.store.sessions, Next(s, e).store.sessions)
  {
    hide StoreInvariant, SweepSound;
    var call, hash := e.step.call, e.step.hash;
    var sessions, sweep := s.store.sessions, s.calls[e.step.call].sweep;
    ReachKeepsSweep(sweep, sessions, hash);
    var phase := Next(s, e).calls[call];
    LocksAfterMove(s.calls, s.locks, sessions, call, phase, if Live(sessions, hash) then Some(hash) else None);
    hide LocksSound;
    assert Next(s, e).calls == s.calls[call := phase];
  }

  lemma HolderExact(s: System, call: nat, h: Hash)
    requires LocksSound(s.calls, s.locks, s.store.sessions) && call in s.calls && Holds(s.calls[call], h)
    ensures h in s.locks && s.locks[h] == call && Live(s.store.sessions, h)
  {
  }

  lemma NotHeld(s: System, call: nat, h: Hash)
    requires LocksSound(s.calls, s.locks, s.store.sessions) && call in s.calls && h in s.locks && s.locks[h] != call
    ensures !Holds(s.calls[call], h) && Live(s.store.sessions, h)
  {
  }

  lemma IssueAdvances(s: Store, hash: Hash, at: int, newHash: Hash, newId: nat, ttlDays: nat)
    requires Live(s.sessions, hash) && newHash !in s.sessions
    ensures Advances(s.sessions, Issue(s, hash, at, newHash, newId, ttlDays).sessions)
    ensures forall h | h in s.sessions && h != hash ::
      Issue(s, hash, at, newHash, newId, ttlDays).sessions[h] == s.sessions[h]
  {
  }

  lemma IssueKeepsSystem(s: System, e: Event)
    requires Invariant(s) && Enabled(s, e.step) && e.step.IssueStep?
    ensures Invariant(Next(s, e)) && Advances(s.store.sessions, Next(s, e).store.sessions)
  {
    hide StoreInvariant, SweepSound, Issue;
    var call := e.step.call;
    var hash, at := s.calls[call].hash, s.calls[call].at;
    var after := Next(s, e).store.sessions;
    assert Holds(s.calls[call], hash);
    IssueKeepsInvariant(s.store, hash, at, e.step.newHash, e.step.newId, e.step.ttlDays);
    IssueAdvances(s.store, hash, at, e.step.newHash, e.step.newId, e.step.ttlDays);
    forall h | h in s.locks && s.locks[h] != call ensures Live(after, h) {
      assert h != hash && Live(s.store.sessions, h);
    }
    LocksAfterEnd(s.calls, s.locks, s.store.sessions, after, call);
    hide LocksSound;
    SweepsStaySound(s.calls, s.store.sessions, Next(s, e).calls, after);
  }

  lemma RejectKeepsSystem(s: System, e: Event)
    requires Invariant(s) && Enabled(s, e.step) && e.step.RejectStep?
    ensures Invariant(Next(s, e)) && Advances(s.store.sessions, Next(s, e).store.sessions)
  {
    hide StoreInvariant, SweepSound;
    var call := e.step.call;
    var hash, at := s.calls[call].hash, s.calls[call].at;
    var after := Next(s, e).store.sessions;
    HolderExact(s, call, hash);
    RecordClaim(s.store, hash, at, AccountInactive);
    forall h | h in s.locks && s.locks[h] != call ensures Live(after, h) {
      assert h != hash && Live(s.store.sessions, h);
    }
    LocksAfterEnd(s.calls, s.locks, s.store.sessions, after, call);
    hide LocksSound;
    SweepsStaySound(s.calls, s.store.sessions, Next(s, e).calls, after);
  }

  lemma RollbackKeepsSystem(s: System, e: Event)
    requires Invariant(s) && Enabled(s, e.step) && e.step.RollbackStep?
    ensures Invariant(Next(s, e)) && Advances(s.store.sessions, Next(s, e).store.sessions)
  {
    hide StoreInvariant, SweepSound;
    LocksAfterEnd(s.calls, s.locks, s.store.sessions, s.store.sessions, e.step.call);
    hide LocksSound;
    SweepsStaySound(s.calls, s.store.sessions, Next(s, e).calls, s.store.sessions);
  }

  lemma RevokeHeldOnlyRevokes(sessions: map<Hash, Session>, sweep: Sweep)
    requires forall h | h in sweep.held :: Live(sessions, h)
    ensures OnlyRevokes(sessions, RevokeHeld(sessions, sweep)) && Advances(sessions, RevokeHeld(sessions, sweep))
  {
  }

  lemma FinishKeepsSystem(s: System, e: Event)
    requires Invariant(s) && Enabled(s, e.step) && e.step.FinishSweepStep?
    ensures Invariant(Next(s, e)) && Advances(s.store.sessions, Next(s, e).store.sessions)
  {
    hide StoreInvariant, SweepSound, OnlyRevokes, SpendTokens;
    var call := e.step.call;
    var sweep, sessions, after := s.calls[e.step.call].sweep, s.store.sessions, Next(s, e).store.sessions;
    forall h | h in sweep.held ensures Live(sessions, h) { assert Holds(s.calls[call], h); }
    RevokeHeldOnlyRevokes(sessions, sweep);
    RevokingKeepsInvariant(s.store, after);
    SameSessionsKeepInvariant(s.store.(sessions := after), Next(s, e).store);
    forall h | h in s.locks && s.locks[h] != call ensures Live(after, h) { NotHeld(s, call, h); }
    LocksAfterEnd(s.calls, s.locks, sessions, after, call);
    hide LocksSound, RevokeHeld;
    SweepsStaySound(s.calls, sessions, Next(s, e).calls, after);
  }

  /** A step outside every call that changes the sessions of no locked row. */
  lemma OutsideKeepsSystem(s: System, next: System)
    requires Invariant(s) && next.calls == s.calls && next.locks == s.locks && StoreInvariant(next.store)
    requires Advances(s.store.sessions, next.store.sessions)
    requires forall h | h in s.locks && h in s.store.sessions ::
      h in next.store.sessions && next.store.sessions[h] == s.store.sessions[h]
    ensures Invariant(next)
  {
    hide StoreInvariant, SweepSound;
    LocksAfterChange(s.calls, s.locks, s.store.sessions, next.store.sessions);
    hide LocksSound, Advances;
    SweepsStaySound(s.calls, s.store.sessions, next.calls, next.store.sessions);
  }

  lemma LoginKeepsSystem(s: System, e: Event)
    requires Invariant(s) && Enabled(s, e.step) && e.step.LoginStep?
    ensures Invariant(Next(s, e)) && Advances(s.store.sessions, Next(s, e).store.sessions)
  {
    hide StoreInvariant, LocksSound, SweepsSound;
    LoginKeepsInvariant(s.store, e.step.userId, e.now, e.step.newHash, e.step.newId, e.step.ttlDays);
    OutsideKeepsSystem(s, Next(s, e));
  }

  lemma LogoutKeepsSystem(s: System, e: Event)
    requires Invariant(s) && Enabled(s, e.step) && e.step.LogoutStep?
    ensures Invariant(Next(s, e)) && Advances(s.store.sessions, Next(s, e).store.sessions)
  {
    hide StoreInvariant, LocksSound, SweepsSound, OnlyRevokes;
    LogoutOnlyRevokes(s.store, e.step.sid, e.now);
    RevokingKeepsInvariant(s.store, Next(s, e).store.sessions);
    OutsideKeepsSystem(s, Next(s, e));
  }

  lemma DeletionChange(s: Store, userId: nat, now: int, requestId: nat)
    ensures match RequestAccountDeletion(s, userId, now, requestId)
      case Failure(_) => true
      case Success(next) =>
        (next == s || next.sessions == RevokeAll(s.sessions, userId, now, None))
        && next.claims == s.claims && next.successors == s.successors
        && next.lineage == s.lineage && next.logins == s.logins
  {
    hide RevokeAll;
  }

  lemma DeletionKeepsSystem(s: System, e: Event)
    requires Invariant(s) && Enabled(s, e.step) && e.step.DeletionStep?
    ensures Invariant(Next(s, e)) && Advances(s.store.sessions, Next(s, e).store.sessions)
  {
    hide StoreInvariant, LocksSound, SweepsSound, OnlyRevokes, RequestAccountDeletion;
    DeletionChange(s.store, e.step.userId, e.now, e.step.requestId);
    var after := Next(s, e).store.sessions;
    if after != s.store.sessions {
      RevokeAllOnlyRevokes(s.store.sessions, e.step.userId, e.now, None);
      RevokingKeepsInvariant(s.store, after);
      SameSessionsKeepInvariant(s.store.(sessions := after), Next(s, e).store);
    } else {
      SameSessionsKeepInvariant(s.store, Next(s, e).store);
    }
    OutsideKeepsSystem(s, Next(s, e));
  }

  lemma TablesKeepSystem(s: System, e: Event)
    requires Invariant(s) && Enabled(s, e.step)
    requires e.step.ResetIssued? || e.step.CancelStep? || e.step.UserChanged?
    ensures Invariant(Next(s, e)) && Advances(s.store.sessions, Next(s, e).store.sessions)
  {
    hide StoreInvariant, LocksSound, SweepsSound;
    SameSessionsKeepInvariant(s.store, Next(s, e).store);
    OutsideKeepsSystem(s, Next(s, e));
  }

  /** Every statement of every operation keeps the invariant, and sessions only advance. */
  lemma StepKeepsInvariant(s: System, e: Event)
    requires Invariant(s) && Enabled(s, e.step)
    ensures Invariant(Next(s, e)) && Advances(s.store.sessions, Next(s, e).store.sessions)
  {
    hide Invariant, Next, Enabled, Advances;
    match e.step
    case LoginStep(_, _, _, _) => LoginKeepsSystem(s, e);
    case ClaimStep(_, _) => ClaimKeepsSystem(s, e);
    case IssueStep(_, _, _, _) => IssueKeepsSystem(s, e);
    case RejectStep(_) => RejectKeepsSystem(s, e);
    case RevokeRowStep(_, _) => ReachKeepsSystem(s, e);
    case FinishSweepStep(_) => FinishKeepsSystem(s, e);
    case RollbackStep(_) => RollbackKeepsSystem(s, e);
    case LogoutStep(_) => LogoutKeepsSystem(s, e);
    case DeletionStep(_, _) => DeletionKeepsSystem(s, e);
    case ReadUserStep(_) => MoveKeepsSystem(s, e);
    case InspectStep(_) => MoveKeepsSystem(s, e);
    case SweepStep(_) => SnapshotKeepsSystem(s, e);
    case ResetStep(_, _) => SnapshotKeepsSystem(s, e);
    case _ => TablesKeepSystem(s, e);
  }

  lemma {:induction false} RunKeepsInvariant(s: System, events: seq<Event>, s': System)
    requires Invariant(s) && Run(s, events, s')
    ensures Invariant(s')
    decreases |events|
  {
    hide Invariant, Next, Enabled, Advances;
    if events != [] {
      StepKeepsInvariant(s, events[0]);
      RunKeepsInvariant(Next(s, events[0]), events[1..], s');
    }
  }

  lemma InitialInvariant(s: System)
    requires Initial(s)
    ensures Invariant(s)
  {
  }

  lemma RunInvariant(s: System, events: seq<Event>, s': System)
    requires Initial(s) && Run(s, events, s')
    ensures Invariant(s')
  {
    hide Invariant, Initial, Run;
    InitialInvariant(s);
    RunKeepsInvariant(s, events, s');
  }

  // ----- What every run shows -----

  /** The session was rotated away at `at`, the time its row stores, for this user. */
  predicate RotatedAt(s: Store, hash: Hash, userId: nat, at: int) {
    && hash in s.sessions && s.sessions[hash].revocationReason == Some(Rotated)
    && s.sessions[hash].revokedAt == Some(at) && s.sessions[hash].userId == userId
  }

  predicate Refreshing(s: System, call: nat, hash: Hash) {
    call in s.calls && !s.calls[call].Sweeping? && Holds(s.calls[call], hash)
  }

  /** In every run each session is claimed by at most one refresh, those in flight included. */
  lemma ClaimedAtMostOnce(s: System, events: seq<Event>, s': System)
    requires Initial(s) && Run(s, events, s')
    ensures NoRepeats(s'.store.claims)
    ensures forall call, hash | Refreshing(s', call, hash) :: hash !in s'.store.claims
    ensures forall call, other, hash | Refreshing(s', call, hash) && Refreshing(s', other, hash) :: call == other
  {
    hide Run, Initial, OneLivePerLineage, SuccessorsOnce, SweepsSound;
    RunInvariant(s, events, s');
    forall call, hash | Refreshing(s', call, hash)
      ensures hash in s'.locks && s'.locks[hash] == call && hash !in s'.store.claims
    {
      HolderExact(s', call, hash);
    }
  }

  /** In every run a session has at most one successor, and is the successor of at most one. */
  lemma AtMostOneSuccessor(s: System, events: seq<Event>, s': System, i: nat, j: nat)
    requires Initial(s) && Run(s, events, s') && i < |s'.store.successors| && j < |s'.store.successors|
    requires
      || s'.store.successors[i].0 == s'.store.successors[j].0
      || s'.store.successors[i].1 == s'.store.successors[j].1
    ensures i == j
  {
    hide Run, Initial, LocksSound, SweepsSound;
    RunInvariant(s, events, s');
  }

  /** In every run two unrevoked sessions never descend from one login. */
  lemma OneLiveSessionPerLogin(s: System, events: seq<Event>, s': System, a: Hash, b: Hash)
    requires Initial(s) && Run(s, events, s')
    requires Live(s'.store.sessions, a) && Live(s'.store.sessions, b)
    ensures a in s'.store.lineage && b in s'.store.lineage
    ensures s'.store.lineage[a] == s'.store.lineage[b] ==> a == b
  {
    hide Run, Initial, LocksSound, SweepsSound;
    RunInvariant(s, events, s');
  }

  /** What a refresh hands out: the presented session revoked as rotated, its sole replacement
      unrevoked for the same user and login. */
  lemma IssuedReplacesOne(s: System, e: Event)
    requires Invariant(s) && Enabled(s, e.step) && e.step.IssueStep?
    ensures var hash, next := s.calls[e.step.call].hash, Next(s, e).store;
      && Live(s.store.sessions, hash) && !Live(next.sessions, hash) && Live(next.sessions, e.step.newHash)
      && next.sessions[e.step.newHash].userId == s.store.sessions[hash].userId
      && RotatedAt(next, hash, s.store.sessions[hash].userId, s.calls[e.step.call].at)
      && hash in s.store.lineage && e.step.newHash in next.lineage
      && next.lineage[e.step.newHash] == s.store.lineage[hash]
      && forall h | h in s.store.sessions && h != hash :: next.sessions[h] == s.store.sessions[h]
  {
    hide RevocationRecorded, ClaimsOnce, SuccessorsOnce, SweepsSound;
    assert Holds(s.calls[e.step.call], s.calls[e.step.call].hash);
  }

  // ----- User-wide revocation -----

  /** No session of the user is unrevoked. */
  ghost predicate NoneLeft(sessions: map<Hash, Session>, userId: nat) {
    forall h | h in sessions && sessions[h].userId == userId :: sessions[h].revokedAt.Some?
  }

  function CallOf(step: Step): Option<nat> {
    match step
    case ClaimStep(call, _) => Some(call)
    case ReadUserStep(call) => Some(call)
    case IssueStep(call, _, _, _) => Some(call)
    case RejectStep(call) => Some(call)
    case InspectStep(call) => Some(call)
    case SweepStep(call) => Some(call)
    case ResetStep(call, _) => Some(call)
    case RevokeRowStep(call, _) => Some(call)
    case FinishSweepStep(call) => Some(call)
    case RollbackStep(call) => Some(call)
    case _ => None
  }

  /** Steps of others, in any number and order, and the call's own progress through its rows. */
  ghost predicate Window(events: seq<Event>, call: nat) {
    forall i | 0 <= i < |events| :: CallOf(events[i].step) == Some(call) ==> events[i].step.RevokeRowStep?
  }

  predicate SameStatement(a: Sweep, b: Sweep) {
    a.userId == b.userId && a.cause == b.cause && a.at == b.at && a.known == b.known
  }

  lemma StepKeepsSweep(s: System, e: Event, call: nat)
    requires Enabled(s, e.step) && call in s.calls && s.calls[call].Sweeping?
    requires CallOf(e.step) == Some(call) ==> e.step.RevokeRowStep?
    ensures call in Next(s, e).calls && Next(s, e).calls[call].Sweeping?
    ensures SameStatement(s.calls[call].sweep, Next(s, e).calls[call].sweep)
  {
    hide Claimable, Usable, Inspect, Issue, Spend, CommitSweep, NewSweep, ResetAccepted, Login, Logout;
    hide RequestAccountDeletion, CancelDeletion, Release, Unused, Live;
  }

  lemma {:induction false} WindowKeepsSweep(s: System, events: seq<Event>, s': System, call: nat)
    requires Invariant(s) && Run(s, events, s') && Window(events, call) && call in s.calls && s.calls[call].Sweeping?
    ensures Invariant(s') && call in s'.calls && s'.calls[call].Sweeping?
    ensures SameStatement(s.calls[call].sweep, s'.calls[call].sweep)
    decreases |events|
  {
    hide Invariant, Next, Enabled, Advances;
    if events != [] {
      assert CallOf(events[0].step) == Some(call) ==> events[0].step.RevokeRowStep?;
      StepKeepsInvariant(s, events[0]);
      StepKeepsSweep(s, events[0], call);
      WindowKeepsSweep(Next(s, events[0]), events[1..], s', call);
    }
  }

  /** When the statement commits, every session its snapshot knew is revoked, and those committed
      since are as others left them. */
  lemma FinishRevokesKnown(s: System, e: Event)
    requires Invariant(s) && Enabled(s, e.step) && e.step.FinishSweepStep?
    ensures var sweep, after := s.calls[e.step.call].sweep, Next(s, e).store.sessions;
      && after.Keys == s.store.sessions.Keys
      && (forall h | h in after :: after[h].userId == s.store.sessions[h].userId)
      && (forall h | h in sweep.known && after[h].userId == sweep.userId :: after[h].revokedAt.Some?)
      && (forall h | h in after && h !in sweep.known :: after[h] == s.store.sessions[h])
  {
    hide StoreInvariant, LocksSound, SpendTokens;
    assert SweepSound(s.calls[e.step.call].sweep, s.store.sessions);
  }

  /** The step commits a session of the user. */
  predicate CommitsSession(s: System, step: Step, userId: nat) {
    match step
    case LoginStep(u, _, _, _) => u == userId
    case IssueStep(call, _, _, _) =>
      && call in s.calls && s.calls[call].Accepted? && s.calls[call].hash in s.store.sessions
      && s.store.sessions[s.calls[call].hash].userId == userId
    case _ => false
  }

  ghost predicate CommitsAny(s: System, events: seq<Event>, userId: nat)
    decreases |events|
  {
    events != [] && Enabled(s, events[0].step)
    && (CommitsSession(s, events[0].step, userId) || CommitsAny(Next(s, events[0]), events[1..], userId))
  }

  /** The step takes an unrevoked session from the user without committing another. */
  ghost predicate TakesSession(s: System, e: Event, userId: nat)
    requires Enabled(s, e.step)
  {
    !CommitsSession(s, e.step, userId)
    && exists h :: (
      Live(s.store.sessions, h) && s.store.sessions[h].userId == userId && !Live(Next(s, e).store.sessions, h))
  }

  /** No other step of the window ends a session of the user. */
  ghost predicate TakesNone(s: System, events: seq<Event>, userId: nat)
    decreases |events|
  {
    events == [] || (Enabled(s, events[0].step) && !TakesSession(s, events[0], userId)
                     && TakesNone(Next(s, events[0]), events[1..], userId))
  }

  lemma OtherStepsKeepKeys(s: System, e: Event)
    requires Enabled(s, e.step) && !e.step.LoginStep? && !e.step.IssueStep?
    ensures Next(s, e).store.sessions.Keys == s.store.sessions.Keys
  {
    hide Claimable, Usable, Inspect, NewSweep, ResetAccepted, Release, Unused, Live, SpendTokens;
    hide RequestAccountDeletion;
    hide Resetting, RevokeHeld, RevokeAll, Logout, ReachRow, Login, Issue, OnlyRevokes;
    match e.step
    case FinishSweepStep(call) => HeldKeys(s.store.sessions, s.calls[call].sweep);
    case LogoutStep(sid) => LogoutKeys(s.store, sid, e.now);
    case DeletionStep(userId, requestId) =>
      DeletionChange(s.store, userId, e.now, requestId);
      AllKeys(s.store.sessions, userId, e.now, None);
    case RevokeRowStep(call, hash) => ReachKeepsStore(s, call, hash);
    case _ =>
  }

  lemma ReachKeepsStore(s: System, call: nat, hash: Hash)
    requires call in s.calls && s.calls[call].Sweeping?
    ensures ReachRow(s, call, hash).store == s.store
  {
  }

  lemma HeldKeys(sessions: map<Hash, Session>, sweep: Sweep)
    ensures RevokeHeld(sessions, sweep).Keys == sessions.Keys
  {
  }

  lemma AllKeys(sessions: map<Hash, Session>, userId: nat, now: int, reason: Option<Reason>)
    ensures RevokeAll(sessions, userId, now, reason).Keys == sessions.Keys
  {
  }

  lemma LogoutKeys(s: Store, sid: nat, now: int)
    ensures Logout(s, sid, now).sessions.Keys == s.sessions.Keys
  {
  }

  lemma NewSessionsCommitted(s: System, e: Event, userId: nat, h: Hash)
    requires Enabled(s, e.step) && h in Next(s, e).store.sessions && h !in s.store.sessions
    requires Next(s, e).store.sessions[h].userId == userId
    ensures CommitsSession(s, e.step, userId)
  {
    hide Release, Unused;
    if !e.step.LoginStep? && !e.step.IssueStep? { OtherStepsKeepKeys(s, e); hide Next; }
  }

  /** Without a commit of a new session of the user, the user has only the sessions known before. */
  lemma {:induction false} NoNewcomers(s: System, events: seq<Event>, s': System, userId: nat)
    requires Invariant(s) && Run(s, events, s') && !CommitsAny(s, events, userId)
    ensures forall h | h in s'.store.sessions && s'.store.sessions[h].userId == userId :: h in s.store.sessions
    decreases |events|
  {
    hide Invariant, Next, Enabled, CommitsSession;
    if events != [] {
      var next := Next(s, events[0]);
      StepKeepsInvariant(s, events[0]);
      NoNewcomers(next, events[1..], s', userId);
      RunAdvances(next, events[1..], s');
      forall h | h in s'.store.sessions && s'.store.sessions[h].userId == userId ensures h in s.store.sessions {
        assert h in next.store.sessions && next.store.sessions[h].userId == userId;
        if h !in s.store.sessions { NewSessionsCommitted(s, events[0], userId, h); }
      }
    }
  }

  lemma {:induction false} RunAdvances(s: System, events: seq<Event>, s': System)
    requires Invariant(s) && Run(s, events, s')
    ensures Advances(s.store.sessions, s'.store.sessions)
    decreases |events|
  {
    hide Invariant, Next, Enabled;
    if events != [] {
      hide Advances;
      StepKeepsInvariant(s, events[0]);
      RunAdvances(Next(s, events[0]), events[1..], s');
    }
  }

  /** The user has an unrevoked session outside the set. */
  ghost predicate Newcomer(sessions: map<Hash, Session>, userId: nat, known: set<Hash>) {
    exists h :: Live(sessions, h) && sessions[h].userId == userId && h !in known
  }

  lemma CommitGivesNewcomer(s: System, e: Event, userId: nat, known: set<Hash>)
    requires Invariant(s) && Enabled(s, e.step) && CommitsSession(s, e.step, userId) && known <= s.store.sessions.Keys
    ensures Newcomer(Next(s, e).store.sessions, userId, known)
  {
    hide Invariant;
    var newHash := e.step.newHash;
    assert newHash !in s.store.sessions;
    assert Live(Next(s, e).store.sessions, newHash);
  }

  lemma NewcomerStays(s: System, e: Event, userId: nat, known: set<Hash>)
    requires Invariant(s) && Enabled(s, e.step) && known <= s.store.sessions.Keys
    requires Newcomer(s.store.sessions, userId, known) && !TakesSession(s, e, userId)
    ensures Newcomer(Next(s, e).store.sessions, userId, known)
  {
    hide Invariant, Next, Enabled, CommitsSession;
    StepKeepsInvariant(s, e);
    if CommitsSession(s, e.step, userId) {
      CommitGivesNewcomer(s, e, userId, known);
    } else {
      var h :| Live(s.store.sessions, h) && s.store.sessions[h].userId == userId && h !in known;
      assert Live(Next(s, e).store.sessions, h);
    }
  }

  /** A session committed in the window leaves the user an unrevoked session. */
  lemma {:induction false} NewcomersRemain(s: System, events: seq<Event>, s': System, userId: nat, known: set<Hash>)
    requires Invariant(s) && Run(s, events, s') && TakesNone(s, events, userId) && known <= s.store.sessions.Keys
    requires Newcomer(s.store.sessions, userId, known) || CommitsAny(s, events, userId)
    ensures Newcomer(s'.store.sessions, userId, known)
    decreases |events|
  {
    hide Invariant, Next, Enabled, CommitsSession, TakesSession, Newcomer;
    if events != [] {
      var next := Next(s, events[0]);
      StepKeepsInvariant(s, events[0]);
      if Newcomer(s.store.sessions, userId, known) {
        NewcomerStays(s, events[0], userId, known);
      } else if CommitsSession(s, events[0].step, userId) {
        CommitGivesNewcomer(s, events[0], userId, known);
      }
      NewcomersRemain(next, events[1..], s', userId, known);
    }
  }

  /** What a user-wide revocation leaves, from its snapshot through any window to its commit: the
      sessions the snapshot saw are all revoked; none is left exactly when those committed since
      have been revoked by others; and if nothing else took a session from the user, exactly when
      no refresh or login of the user committed one. */
  lemma SweepExact(s: System, window: seq<Event>, s': System, finish: Event, call: nat)
    requires Invariant(s) && call in s.calls && s.calls[call].Sweeping?
    requires s.calls[call].sweep.known == s.store.sessions.Keys
    requires Run(s, window, s') && Window(window, call) && finish.step == FinishSweepStep(call)
    requires Enabled(s', finish.step)
    ensures var userId, end := s.calls[call].sweep.userId, Next(s', finish).store.sessions;
      && (forall h | h in s.store.sessions && s.store.sessions[h].userId == userId ::
            h in end && end[h].revokedAt.Some?)
      && (NoneLeft(end, userId) <==> !Newcomer(s'.store.sessions, userId, s.store.sessions.Keys))
      && (TakesNone(s, window, userId) ==> (NoneLeft(end, userId) <==> !CommitsAny(s, window, userId)))
  {
    hide Invariant, Run, Next, Enabled, CommitsAny, TakesNone, Window;
    var userId, known := s.calls[call].sweep.userId, s.store.sessions.Keys;
    WindowKeepsSweep(s, window, s', call);
    FinishRevokesKnown(s', finish);
    RunAdvances(s, window, s');
    var end := Next(s', finish).store.sessions;
    if Newcomer(s'.store.sessions, userId, known) {
      var h :| Live(s'.store.sessions, h) && s'.store.sessions[h].userId == userId && h !in known;
      assert end[h].revokedAt.None?;
    }
    if CommitsAny(s, window, userId) && TakesNone(s, window, userId) {
      NewcomersRemain(s, window, s', userId, known);
    }
    if !CommitsAny(s, window, userId) {
      NoNewcomers(s, window, s', userId);
    }
  }

  // ----- Reuse -----

  lemma RotatedStays(before: Store, after: Store, hash: Hash, userId: nat, at: int)
    requires RotatedAt(before, hash, userId, at) && Advances(before.sessions, after.sessions)
    ensures RotatedAt(after, hash, userId, at)
  {
  }

  ghost predicate Untouched(events: seq<Event>, call: nat) {
    forall i | 0 <= i < |events| :: CallOf(events[i].step) != Some(call)
  }

  lemma OtherStepLeavesCall(s: System, e: Event, call: nat)
    requires Enabled(s, e.step) && CallOf(e.step) != Some(call) && call in s.calls
    ensures call in Next(s, e).calls && Next(s, e).calls[call] == s.calls[call]
  {
    hide Claimable, Usable, Inspect, Issue, Spend, CommitSweep, NewSweep, ResetAccepted, Login, Logout;
    hide RequestAccountDeletion, CancelDeletion, Release, Unused, Live;
  }

  /** Steps of other calls, in any number and order, change neither a rotated session nor where
      this call stands. */
  lemma {:induction false} OthersLeaveCall(s: System, events: seq<Event>, s': System, call: nat, hash: Hash,
      userId: nat, at: int)
    requires Invariant(s) && Run(s, events, s') && Untouched(events, call)
    requires RotatedAt(s.store, hash, userId, at) && call in s.calls
    ensures Invariant(s') && RotatedAt(s'.store, hash, userId, at) && call in s'.calls
    ensures s'.calls[call] == s.calls[call]
    decreases |events|
  {
    hide Invariant, Next, Enabled, RotatedAt, Advances;
    if events != [] {
      StepKeepsInvariant(s, events[0]);
      RotatedStays(s.store, Next(s, events[0]).store, hash, userId, at);
      assert CallOf(events[0].step) != Some(call);
      OtherStepLeavesCall(s, events[0], call);
      OthersLeaveCall(Next(s, events[0]), events[1..], s', call, hash, userId, at);
    }
  }

  lemma PresentRotated(s: System, e: Event, hash: Hash, userId: nat, at: int)
    requires RotatedAt(s.store, hash, userId, at) && Enabled(s, e.step) && e.step.ClaimStep? && e.step.hash == hash
    ensures Next(s, e) == s.(calls := s.calls[e.step.call := AfterFailedClaim(hash)])
  {
  }

  lemma InspectLate(s: System, e: Event, hash: Hash, userId: nat, at: int)
    requires RotatedAt(s.store, hash, userId, at) && e.step.InspectStep? && e.step.call in s.calls
    requires s.calls[e.step.call] == AfterFailedClaim(hash) && e.now >= at + REFRESH_REUSE_GRACE_MS
    ensures Enabled(s, e.step) && Next(s, e) == s.(calls := s.calls[e.step.call := FoundReuse(userId)])
  {
  }

  /** A rotated token presented and looked up ten seconds or more after its stored rotation always
      leads to the user-wide revocation, whatever other calls do in between. */
  lemma LateReuseIsFound(
    s0: System, present: Event, others: seq<Event>, s1: System, inspect: Event, more: seq<Event>, s2: System,
    call: nat, hash: Hash, userId: nat, at: int)
    requires Invariant(s0) && RotatedAt(s0.store, hash, userId, at)
    requires present.step == ClaimStep(call, hash) && Enabled(s0, present.step)
    requires Run(Next(s0, present), others, s1) && Untouched(others, call)
    requires inspect.step == InspectStep(call) && inspect.now >= at + REFRESH_REUSE_GRACE_MS
    requires Enabled(s1, inspect.step) ==> Run(Next(s1, inspect), more, s2) && Untouched(more, call)
    ensures Next(s0, present).store == s0.store && Enabled(s1, inspect.step) && Next(s1, inspect).store == s1.store
    ensures Invariant(s2) && Enabled(s2, SweepStep(call)) && s2.calls[call] == FoundReuse(userId)
  {
    hide Invariant, Run, Next, RotatedAt, Advances, Untouched;
    StepKeepsInvariant(s0, present);
    PresentRotated(s0, present, hash, userId, at);
    OthersLeaveCall(Next(s0, present), others, s1, call, hash, userId, at);
    InspectLate(s1, inspect, hash, userId, at);
    StepKeepsInvariant(s1, inspect);
    OthersLeaveCall(Next(s1, inspect), more, s2, call, hash, userId, at);
  }

  /** A lookup within ten seconds of the stored rotation never counts as reuse, a later one always
      does. */
  lemma GraceExact(s: Store, hash: Hash, userId: nat, at: int, now: int)
    requires RotatedAt(s, hash, userId, at)
    ensures Inspect(s, hash, now) == if now < at + REFRESH_REUSE_GRACE_MS then None else Some(userId)
  {
  }

  lemma BeginSweep(s: System, begin: Event)
    requires Invariant(s) && Enabled(s, begin.step)
    requires begin.step.SweepStep? || (begin.step.ResetStep? && ResetAccepted(s.store, begin.step.token, begin.now))
    ensures var next := Next(s, begin);
      && Invariant(next) && next.store == s.store && begin.step.call in next.calls
      && next.calls[begin.step.call].Sweeping?
      && next.calls[begin.step.call].sweep.known == s.store.sessions.Keys
      && next.calls[begin.step.call].sweep.userId ==
           (if begin.step.SweepStep? then s.calls[begin.step.call].userId
             else s.store.resetTokens[begin.step.token].userId)
      && next.calls[begin.step.call].sweep.cause ==
           (if begin.step.SweepStep? then ForReuse else ForReset(begin.step.token))
  {
    StepKeepsInvariant(s, begin);
  }

  /** After the revocation for reuse: the user keeps no session the snapshot saw, and none at all
      exactly when no refresh or login of the user committed one between snapshot and commit. */
  lemma ReuseEndsExactly(s: System, begin: Event, window: seq<Event>, s': System, finish: Event, call: nat, userId: nat)
    requires Invariant(s) && begin.step == SweepStep(call) && call in s.calls && s.calls[call] == FoundReuse(userId)
    requires Run(Next(s, begin), window, s') && Window(window, call)
    requires finish.step == FinishSweepStep(call) && Enabled(s', finish.step)
    ensures var end := Next(s', finish).store.sessions;
      && (forall h | h in s.store.sessions && s.store.sessions[h].userId == userId ::
            h in end && end[h].revokedAt.Some?)
      && (NoneLeft(end, userId) <==> !Newcomer(s'.store.sessions, userId, s.store.sessions.Keys))
      && (TakesNone(Next(s, begin), window, userId) ==>
            (NoneLeft(end, userId) <==> !CommitsAny(Next(s, begin), window, userId)))
  {
    hide Invariant, Run, Next, Window, NoneLeft, Newcomer, TakesNone, CommitsAny;
    BeginSweep(s, begin);
    SweepExact(Next(s, begin), window, s', finish, call);
  }

  /** The same after a password reset, whose token can then never be used again. */
  lemma ResetEndsExactly(s: System, begin: Event, window: seq<Event>, s': System, finish: Event, call: nat, token: Hash)
    requires Invariant(s) && begin.step == ResetStep(call, token) && Enabled(s, begin.step)
    requires ResetAccepted(s.store, token, begin.now)
    requires Run(Next(s, begin), window, s') && Window(window, call)
    requires finish.step == FinishSweepStep(call) && Enabled(s', finish.step)
    ensures var end, userId := Next(s', finish).store, s.store.resetTokens[token].userId;
      && (forall h | h in s.store.sessions && s.store.sessions[h].userId == userId ::
            h in end.sessions && end.sessions[h].revokedAt.Some?)
      && (NoneLeft(end.sessions, userId) <==> !Newcomer(s'.store.sessions, userId, s.store.sessions.Keys))
      && (TakesNone(Next(s, begin), window, userId) ==>
           (NoneLeft(end.sessions, userId) <==> !CommitsAny(Next(s, begin), window, userId)))
      && (forall later :: !ResetAccepted(end, token, later))
  {
    hide Invariant, Run, Next, Window, NoneLeft, Newcomer, TakesNone, CommitsAny;
    BeginSweep(s, begin);
    SweepExact(Next(s, begin), window, s', finish, call);
    WindowKeepsSweep(Next(s, begin), window, s', call);
    SpentTokenStays(s', finish, token);
  }

  lemma SpentTokenStays(s: System, finish: Event, token: Hash)
    requires Enabled(s, finish.step) && finish.step.FinishSweepStep?
    requires s.calls[finish.step.call].sweep.cause == ForReset(token)
    ensures forall later :: !ResetAccepted(Next(s, finish).store, token, later)
  {
  }

  /** An accepted deletion request leaves no session and no usable account. */
  lemma DeletionEndsSessions(s: System, e: Event)
    requires Enabled(s, e.step) && e.step.DeletionStep?
    requires Usable(s.store.users, e.step.userId) && !PendingDeletion(s.store, e.step.userId)
    ensures NoneLeft(Next(s, e).store.sessions, e.step.userId) && !Usable(Next(s, e).store.users, e.step.userId)
  {
  }

  // ----- A successor that survives -----

  ghost predicate NoRollback(events: seq<Event>) {
    forall i | 0 <= i < |events| :: !events[i].step.RollbackStep?
  }

  /** In the run the sweeper's revocation commits and `taken` happens, and afterwards `newHash`, the
      recorded successor of `live`, is an unrevoked session of the user. */
  ghost predicate Escaped(s: System, events: seq<Event>, s': System, now: int, sweeper: nat, taken: set<Step>,
                          live: Hash, newHash: Hash, userId: nat) {
    && Run(s, events, s') && NoRollback(events)
    && Event(now, FinishSweepStep(sweeper)) in events && sweeper !in s'.calls
    && (forall step | step in taken :: Event(now, step) in events)
    && (live, newHash) in s'.store.successors && Live(s'.store.sessions, newHash)
    && s'.store.sessions[newHash].userId == userId && !NoneLeft(s'.store.sessions, userId)
  }

  /** A refresh already past its user check when the snapshot is taken commits its successor while
      the revocation waits for the claimed row, which it then passes over, and commits. */
  lemma EscapeSweep(s: System, sweeper: nat, refresher: nat, live: Hash, newHash: Hash, newId: nat, ttlDays: nat,
      now: int)
    returns (events: seq<Event>, s': System)
    requires Invariant(s) && sweeper in s.calls && s.calls[sweeper].Sweeping?
    requires s.calls[sweeper].sweep.pending == {live}
    requires refresher in s.calls && s.calls[refresher].Accepted? && s.calls[refresher].hash == live
    requires Unused(s.store.sessions, newHash, newId)
    ensures Escaped(s, events, s', now, sweeper, {}, live, newHash, s.store.sessions[live].userId)
    ensures refresher !in s'.calls
  {
    var e1 := Event(now, IssueStep(refresher, newHash, newId, ttlDays));
    var e2 := Event(now, RevokeRowStep(sweeper, live));
    var e3 := Event(now, FinishSweepStep(sweeper));
    hide Invariant, Next, Run, Unused;
    EscapeIssue(s, sweeper, e1, live);
    var s1 := Next(s, e1);
    EscapeRow(s1, sweeper, e2, live);
    var s2 := Next(s1, e2);
    assert Enabled(s2, e3.step);
    hide Enabled;
    EscapeFinish(s2, e3, newHash);
    s' := Next(s2, e3);
    events := [e1, e2, e3];
    assert events[2] == e3;
    RunThree(s, e1, e2, e3);
  }

  lemma RunOne(s: System, e: Event)
    requires Enabled(s, e.step)
    ensures Run(s, [e], Next(s, e))
  {
    hide Enabled, Next;
    assert [e][1..] == [] && Run(Next(s, e), [], Next(s, e));
  }

  lemma RunThree(s: System, e1: Event, e2: Event, e3: Event)
    requires Enabled(s, e1.step) && Enabled(Next(s, e1), e2.step) && Enabled(Next(Next(s, e1), e2), e3.step)
    ensures Run(s, [e1, e2, e3], Next(Next(Next(s, e1), e2), e3))
  {
    hide Enabled, Next;
    var last := Next(Next(Next(s, e1), e2), e3);
    assert Run(last, [], last);
    assert [e3][1..] == [] && [e2, e3][1..] == [e3] && [e1, e2, e3][1..] == [e2, e3];
    assert Run(Next(Next(s, e1), e2), [e3], last);
    assert Run(Next(s, e1), [e2, e3], last);
  }

  lemma EscapeIssue(s: System, sweeper: nat, e: Event, live: Hash)
    requires Invariant(s) && sweeper in s.calls && s.calls[sweeper].Sweeping?
    requires s.calls[sweeper].sweep.pending == {live}
    requires e.step.IssueStep? && e.step.call in s.calls && s.calls[e.step.call].Accepted?
    requires s.calls[e.step.call].hash == live
    requires Unused(s.store.sessions, e.step.newHash, e.step.newId)
    ensures Enabled(s, e.step)
    ensures var next := Next(s, e);
      && Invariant(next) && sweeper in next.calls && next.calls[sweeper] == s.calls[sweeper]
      && e.step.call !in next.calls
      && live !in next.locks && !Live(next.store.sessions, live) && Live(next.store.sessions, e.step.newHash)
      && next.store.sessions[e.step.newHash].userId == s.store.sessions[live].userId
      && (live, e.step.newHash) in next.store.successors
      && e.step.newHash !in s.calls[sweeper].sweep.known
  {
    hide StoreInvariant;
    assert Holds(s.calls[e.step.call], live);
    assert Enabled(s, e.step);
    StepKeepsInvariant(s, e);
    var successors := Next(s, e).store.successors;
    assert successors[|successors| - 1] == (live, e.step.newHash);
    assert SweepSound(s.calls[sweeper].sweep, s.store.sessions);
  }

  lemma EscapeRow(s: System, sweeper: nat, e: Event, live: Hash)
    requires Invariant(s) && sweeper in s.calls && s.calls[sweeper].Sweeping?
    requires s.calls[sweeper].sweep.pending == {live}
    requires e.step == RevokeRowStep(sweeper, live) && live !in s.locks && !Live(s.store.sessions, live)
    ensures Enabled(s, e.step)
    ensures var next := Next(s, e);
      && Invariant(next) && next.store == s.store && sweeper in next.calls && next.calls.Keys == s.calls.Keys
      && next.calls[sweeper].Sweeping? && next.calls[sweeper].sweep == s.calls[sweeper].sweep.(pending := {})
  {
    hide StoreInvariant;
    StepKeepsInvariant(s, e);
  }

  lemma EscapeFinish(s: System, e: Event, newHash: Hash)
    requires Invariant(s) && e.step.FinishSweepStep? && Enabled(s, e.step)
    requires Live(s.store.sessions, newHash) && newHash !in s.calls[e.step.call].sweep.known
    ensures var next := Next(s, e);
      && next.calls == s.calls - {e.step.call} && Live(next.store.sessions, newHash)
      && next.store.successors == s.store.successors
      && next.store.sessions[newHash].userId == s.store.sessions[newHash].userId
  {
    FinishRevokesKnown(s, e);
  }

  /** A refresh that claims a row only after the snapshot, before the revocation reaches that row,
      escapes as well. */
  lemma LateClaimEscapes(
    s: System, sweeper: nat, refresher: nat, live: Hash, newHash: Hash, newId: nat, ttlDays: nat, now: int)
    returns (events: seq<Event>, s': System)
    requires Invariant(s) && sweeper in s.calls && s.calls[sweeper].Sweeping?
    requires s.calls[sweeper].sweep.pending == {live} && live !in s.locks && refresher !in s.calls
    requires Claimable(s.store.sessions, live, now) && Usable(s.store.users, s.store.sessions[live].userId)
    requires Unused(s.store.sessions, newHash, newId)
    ensures Escaped(s, events, s', now, sweeper, {ClaimStep(refresher, live)}, live, newHash,
              s.calls[sweeper].sweep.userId)
  {
    hide StoreInvariant;
    var e1, e2 := Event(now, ClaimStep(refresher, live)), Event(now, ReadUserStep(refresher));
    StepKeepsInvariant(s, e1);
    var s1 := Next(s, e1);
    assert s1 == s.(calls := s.calls[refresher := Claimed(live, now)], locks := s.locks[live := refresher]);
    StepKeepsInvariant(s1, e2);
    var s2 := Next(s1, e2);
    assert s2 == s1.(calls := s1.calls[refresher := Accepted(live, now)]);
    assert SweepSound(s.calls[sweeper].sweep, s.store.sessions) && live in s.calls[sweeper].sweep.pending;
    hide Invariant, Next, Enabled;
    RunOne(s, e1);
    RunOne(s1, e2);
    events, s' := EscapeSweep(s2, sweeper, refresher, live, newHash, newId, ttlDays, now);
    RunConcat(s1, [e2], s2, events, s');
    RunConcat(s, [e1], s1, [e2] + events, s');
    var tail := events;
    events := [e1] + ([e2] + tail);
    assert events[0] == e1;
  }

  /** A moment at which nothing is in flight and the user has one unrevoked session. */
  ghost predicate Quiet(s: System, userId: nat, live: Hash, now: int) {
    && Invariant(s) && s.calls == map[] && s.locks == map[] && Usable(s.store.users, userId)
    && Claimable(s.store.sessions, live, now) && s.store.sessions[live].userId == userId
    && forall h | Live(s.store.sessions, h) && s.store.sessions[h].userId == userId :: h == live
  }

  /** The refresh of the live session up to its user check. */
  function MidRefresh(s: System, refresher: nat, live: Hash, now: int): System {
    System(s.store, map[refresher := Accepted(live, now)], map[live := refresher])
  }

  lemma StartRefresh(s: System, userId: nat, live: Hash, now: int)
    requires Quiet(s, userId, live, now)
    ensures Run(s, [Event(now, ClaimStep(2, live)), Event(now, ReadUserStep(2))], MidRefresh(s, 2, live, now))
    ensures Invariant(MidRefresh(s, 2, live, now))
  {
    hide StoreInvariant;
    var e1, e2 := Event(now, ClaimStep(2, live)), Event(now, ReadUserStep(2));
    StepKeepsInvariant(s, e1);
    var s1 := Next(s, e1);
    assert s1 == System(s.store, map[2 := Claimed(live, now)], map[live := 2]);
    StepKeepsInvariant(s1, e2);
    var s2 := Next(s1, e2);
    assert s2 == MidRefresh(s, 2, live, now);
    assert [e2][1..] == [] && [e1, e2][1..] == [e2];
    assert Run(s2, [], s2) && Run(s1, [e2], s2);
  }

  lemma {:induction false} RunConcat(s: System, first: seq<Event>, mid: System, second: seq<Event>, s': System)
    requires Run(s, first, mid) && Run(mid, second, s')
    ensures Run(s, first + second, s')
    decreases |first|
  {
    hide Next, Enabled;
    if first == [] {
      assert first + second == second;
    } else {
      RunConcat(Next(s, first[0]), first[1..], mid, second, s');
      assert (first + second)[1..] == first[1..] + second;
    }
  }

  /** Reuse with an escape: from every quiet moment there is a run in which a rotated token is
      presented late, its revocation runs to its commit, and a successor stays unrevoked. */
  lemma SuccessorSurvivesReuse(s: System, rotated: Hash, userId: nat, at: int, live: Hash, newHash: Hash, newId: nat,
      ttlDays: nat, now: int)
    returns (events: seq<Event>, s': System)
    requires Quiet(s, userId, live, now) && RotatedAt(s.store, rotated, userId, at)
    requires now >= at + REFRESH_REUSE_GRACE_MS
    requires Unused(s.store.sessions, newHash, newId)
    ensures Escaped(s, events, s', now, 1, {ClaimStep(1, rotated), SweepStep(1)}, live, newHash, userId)
  {
    hide Invariant, Run;
    StartRefresh(s, userId, live, now);
    var mid := MidRefresh(s, 2, live, now);
    var e1, e2, e3 := Event(now, ClaimStep(1, rotated)), Event(now, InspectStep(1)), Event(now, SweepStep(1));
    PresentRotated(mid, e1, rotated, userId, at);
    var m1 := Next(mid, e1);
    InspectLate(m1, e2, rotated, userId, at);
    var m2 := Next(m1, e2);
    var m3 := Next(m2, e3);
    assert m3.calls[1].sweep.pending == {live};
    RunThree(mid, e1, e2, e3);
    StepKeepsInvariant(mid, e1);
    StepKeepsInvariant(m1, e2);
    StepKeepsInvariant(m2, e3);
    var tail: seq<Event>;
    tail, s' := EscapeSweep(m3, 1, 2, live, newHash, newId, ttlDays, now);
    var start := [Event(now, ClaimStep(2, live)), Event(now, ReadUserStep(2))];
    RunConcat(mid, [e1, e2, e3], m3, tail, s');
    RunConcat(s, start, mid, [e1, e2, e3] + tail, s');
    events := start + ([e1, e2, e3] + tail);
    assert events[2] == e1 && events[4] == e3;
  }

  /** The same escape from the revocation of a password reset. */
  lemma SuccessorSurvivesReset(s: System, token: Hash, live: Hash, newHash: Hash, newId: nat, ttlDays: nat, now: int)
    returns (events: seq<Event>, s': System)
    requires ResetAccepted(s.store, token, now) && Quiet(s, s.store.resetTokens[token].userId, live, now)
    requires Unused(s.store.sessions, newHash, newId)
    ensures Escaped(s, events, s', now, 1, {ResetStep(1, token)}, live, newHash, s.store.resetTokens[token].userId)
  {
    hide Invariant, Run;
    var userId := s.store.resetTokens[token].userId;
    StartRefresh(s, userId, live, now);
    var mid := MidRefresh(s, 2, live, now);
    var begin := Event(now, ResetStep(1, token));
    var m1 := Next(mid, begin);
    assert m1.calls[1].sweep.pending == {live};
    StepKeepsInvariant(mid, begin);
    RunOne(mid, begin);
    var tail: seq<Event>;
    tail, s' := EscapeSweep(m1, 1, 2, live, newHash, newId, ttlDays, now);
    var start := [Event(now, ClaimStep(2, live)), Event(now, ReadUserStep(2))];
    RunConcat(mid, [begin], m1, tail, s');
    RunConcat(s, start, mid, [begin] + tail, s');
    events := start + ([begin] + tail);
    assert events[2] == begin;
  }

  // ----- Prompt calls -----

  /** A lookup of a rotated session happens less than ten seconds after its rotation. */
  ghost predicate Prompt(s: System, e: Event)
    requires Enabled(s, e.step)
  {
    e.step.InspectStep? ==>
      forall userId, at | RotatedAt(s.store, s.calls[e.step.call].hash, userId, at) ::
        e.now < at + REFRESH_REUSE_GRACE_MS
  }

  /** A run all of whose lookups are prompt. */
  ghost predicate PromptRun(s: System, events: seq<Event>, s': System)
    decreases |events|
  {
    if events == [] then s' == s
    else Enabled(s, events[0].step) && Prompt(s, events[0]) && PromptRun(Next(s, events[0]), events[1..], s')
  }

  ghost predicate NoReuse(sessions: map<Hash, Session>) {
    forall h | h in sessions :: sessions[h].revocationReason != Some(RefreshReuse)
  }

  predicate RevokesReuse(phase: Phase) {
    phase.FoundReuse? || (phase.Sweeping? && phase.sweep.cause.ForReuse?)
  }

  ghost predicate NoReuseRevocation(s: System) {
    NoReuse(s.store.sessions) && forall c | c in s.calls :: !RevokesReuse(s.calls[c])
  }

  lemma PromptLookup(s: System, e: Event)
    requires RevocationRecorded(s.store.sessions) && Enabled(s, e.step) && Prompt(s, e) && e.step.InspectStep?
    ensures Inspect(s.store, s.calls[e.step.call].hash, e.now).None?
  {
    var hash := s.calls[e.step.call].hash;
    if hash in s.store.sessions && s.store.sessions[hash].revocationReason == Some(Rotated) {
      var session := s.store.sessions[hash];
      assert RotatedAt(s.store, hash, session.userId, session.revokedAt.value);
    }
  }

  lemma PromptCalls(s: System, e: Event)
    requires RevocationRecorded(s.store.sessions) && Enabled(s, e.step) && NoReuseRevocation(s) && Prompt(s, e)
    ensures forall c | c in Next(s, e).calls :: !RevokesReuse(Next(s, e).calls[c])
  {
    if e.step.InspectStep? { PromptLookup(s, e); }
    hide Claimable, Usable, Inspect, Issue, Spend, CommitSweep, Prompt, ResetAccepted, Login, Logout;
    hide RequestAccountDeletion, CancelDeletion, Release, Unused, Live, NoReuse;
  }

  lemma IssueNoReuse(s: Store, hash: Hash, at: int, newHash: Hash, newId: nat, ttlDays: nat)
    requires NoReuse(s.sessions) && hash in s.sessions
    ensures NoReuse(Issue(s, hash, at, newHash, newId, ttlDays).sessions)
  {
  }

  lemma RevokeHeldNoReuse(sessions: map<Hash, Session>, sweep: Sweep)
    requires NoReuse(sessions) && sweep.cause.ForReset?
    ensures NoReuse(RevokeHeld(sessions, sweep))
  {
  }

  lemma RevokeAllNoReuse(sessions: map<Hash, Session>, userId: nat, now: int)
    requires NoReuse(sessions)
    ensures NoReuse(RevokeAll(sessions, userId, now, None))
  {
  }

  lemma LogoutNoReuse(s: Store, sid: nat, now: int)
    requires NoReuse(s.sessions)
    ensures NoReuse(Logout(s, sid, now).sessions)
  {
  }

  lemma PromptSessions(s: System, e: Event)
    requires Enabled(s, e.step) && NoReuseRevocation(s)
    ensures NoReuse(Next(s, e).store.sessions)
  {
    hide Claimable, Usable, Inspect, SpendTokens, NewSweep, ResetAccepted, Release, Unused, Live, Resetting;
    hide Issue, RevokeHeld, RevokeAll, Logout, RequestAccountDeletion;
    match e.step
    case IssueStep(call, newHash, newId, ttlDays) =>
      IssueNoReuse(s.store, s.calls[call].hash, s.calls[call].at, newHash, newId, ttlDays);
    case FinishSweepStep(call) =>
      assert !RevokesReuse(s.calls[call]);
      RevokeHeldNoReuse(s.store.sessions, s.calls[call].sweep);
    case LogoutStep(sid) => LogoutNoReuse(s.store, sid, e.now);
    case DeletionStep(userId, requestId) =>
      DeletionChange(s.store, userId, e.now, requestId);
      RevokeAllNoReuse(s.store.sessions, userId, e.now);
    case _ =>
  }

  /** If every call with a rotated token is looked up within ten seconds of its stored rotation, no
      session is ever revoked as reuse. */
  lemma {:induction false} PromptCallsNeverRevoke(s: System, events: seq<Event>, s': System)
    requires PromptRun(s, events, s') && Invariant(s) && NoReuseRevocation(s)
    ensures NoReuseRevocation(s')
    decreases |events|
  {
    hide Next, Enabled, Prompt, NoReuse, RevokesReuse, LocksSound, SweepsSound, Advances;
    if events != [] {
      PromptCalls(s, events[0]);
      PromptSessions(s, events[0]);
      StepKeepsInvariant(s, events[0]);
      PromptCallsNeverRevoke(Next(s, events[0]), events[1..], s');
    }
  }

  /** An inactive account's session is burnt by the attempt, without a successor. */
  lemma InactiveGetsNoSuccessor(s: System, read: Event, reject: Event)
    requires Invariant(s) && Enabled(s, read.step) && read.step.ReadUserStep?
    requires reject.step == RejectStep(read.step.call)
    requires !Usable(s.store.users, s.store.sessions[s.calls[read.step.call].hash].userId)
    ensures var next := Next(s, read);
      && Enabled(next, reject.step) && next.calls[read.step.call].Rejected?
      && Next(next, reject).store.successors == s.store.successors
      && !Live(Next(next, reject).store.sessions, s.calls[read.step.call].hash)
  {
  }
}
