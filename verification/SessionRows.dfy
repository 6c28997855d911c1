/** What each statement on sessions does to the rows, told by their columns, and over runs that only
    unexpired sessions are refreshed. */
module SessionRows {
  import opened Outcomes
  import opened Sessions

  // ----- Only unexpired sessions are refreshed -----

  /** The call's refresh found its session unexpired when it claimed it. */
  ghost predicate TimelyCall(phase: Phase, sessions: map<Hash, Session>) {
    match phase
    case Claimed(hash, at) => hash in sessions && at < sessions[hash].expiresAt
    case Accepted(hash, at) => hash in sessions && at < sessions[hash].expiresAt
    case Rejected(hash, at) => hash in sessions && at < sessions[hash].expiresAt
    case _ => true
  }

  /** The session was rotated away before its expiry. */
  ghost predicate TimelyRotation(hash: Hash, sessions: map<Hash, Session>) {
    && hash in sessions && sessions[hash].revokedAt.Some?
    && sessions[hash].revokedAt.value < sessions[hash].expiresAt
  }

  ghost predicate Timely(s: System) {
    && (forall c | c in s.calls :: TimelyCall(s.calls[c], s.store.sessions))
    && (forall i | 0 <= i < |s.store.successors| :: TimelyRotation(s.store.successors[i].0, s.store.sessions))
  }

  /** A claim takes effect exactly on an unrevoked session whose stored expiry lies ahead. */
  lemma ClaimExact(s: System, e: Event)
    requires Enabled(s, e.step) && e.step.ClaimStep?
    ensures var call, hash, next := e.step.call, e.step.hash, Next(s, e);
      && next.store == s.store && call in next.calls
      && (if hash in s.store.sessions && s.store.sessions[hash].revokedAt.None?
             && e.now < s.store.sessions[hash].expiresAt
          then next.calls[call] == Claimed(hash, e.now) && hash in next.locks && next.locks[hash] == call
          else next.calls[call] == AfterFailedClaim(hash) && next.locks == s.locks)
      && forall c | c != call :: (c in next.calls <==> c in s.calls) && (c in s.calls ==> next.calls[c] == s.calls[c])
  {
  }

  lemma AdvancingStaysTimely(s: System, next: System)
    requires Timely(s) && Advances(s.store.sessions, next.store.sessions)
    requires next.store.successors == s.store.successors
    requires forall c | c in next.calls :: TimelyCall(next.calls[c], s.store.sessions)
    ensures Timely(next)
  {
  }

  /** The step's own call stays timely, and other calls stand where they stood. */
  lemma CallsStayTimely(s: System, e: Event, c: nat)
    requires Timely(s) && Enabled(s, e.step) && c in Next(s, e).calls
    ensures TimelyCall(Next(s, e).calls[c], s.store.sessions)
  {
    hide Usable, Inspect, Issue, Spend, CommitSweep, NewSweep, ResetAccepted, Login, Logout;
    hide RequestAccountDeletion, CancelDeletion, Unused;
    if c in s.calls { assert TimelyCall(s.calls[c], s.store.sessions); }
  }

  lemma OnlyIssueAddsSuccessors(s: System, e: Event)
    requires Enabled(s, e.step) && !e.step.IssueStep?
    ensures Next(s, e).store.successors == s.store.successors
  {
    if e.step.DeletionStep? {
      DeletionChange(s.store, e.step.userId, e.now, e.step.requestId);
      NextDeletion(s, e);
      hide Next;
    }
    if e.step.RevokeRowStep? { ReachKeepsStore(s, e.step.call, e.step.hash); }
    hide Usable, Inspect, NewSweep, ResetAccepted, Claimable, RevokeAll, RevokeHeld, SpendTokens, Unused, Enabled;
    hide RequestAccountDeletion, ReachRow, Release, Issue, NewSession, Cancellable, Live, Resetting;
  }

  lemma IssueStaysTimely(s: System, e: Event)
    requires Invariant(s) && Timely(s) && Enabled(s, e.step) && e.step.IssueStep?
    ensures Timely(Next(s, e))
  {
    var call, next := e.step.call, Next(s, e);
    var hash := s.calls[call].hash;
    StepKeepsInvariant(s, e);
    NextIssue(s, e);
    assert TimelyCall(s.calls[call], s.store.sessions);
    assert TimelyRotation(hash, next.store.sessions);
    hide Invariant, Next;
    forall i | 0 <= i < |next.store.successors|
      ensures TimelyRotation(next.store.successors[i].0, next.store.sessions)
    {
      if i < |s.store.successors| { assert TimelyRotation(s.store.successors[i].0, s.store.sessions); }
    }
    forall c | c in next.calls ensures TimelyCall(next.calls[c], next.store.sessions) {
      assert TimelyCall(s.calls[c], s.store.sessions);
    }
  }

  lemma StepStaysTimely(s: System, e: Event)
    requires Invariant(s) && Timely(s) && Enabled(s, e.step)
    ensures Timely(Next(s, e))
  {
    hide Invariant, Next, Enabled, Timely, Advances, TimelyCall;
    if e.step.IssueStep? {
      IssueStaysTimely(s, e);
    } else {
      StepKeepsInvariant(s, e);
      OnlyIssueAddsSuccessors(s, e);
      forall c | c in Next(s, e).calls ensures TimelyCall(Next(s, e).calls[c], s.store.sessions) {
        CallsStayTimely(s, e, c);
      }
      AdvancingStaysTimely(s, Next(s, e));
    }
  }

  lemma {:induction false} RunStaysTimely(s: System, events: seq<Event>, s': System)
    requires Invariant(s) && Timely(s) && Run(s, events, s')
    ensures Timely(s')
    decreases |events|
  {
    hide Invariant, Next, Enabled, Timely, Advances;
    if events != [] {
      StepKeepsInvariant(s, events[0]);
      StepStaysTimely(s, events[0]);
      RunStaysTimely(Next(s, events[0]), events[1..], s');
    }
  }

  /** In every run whoever is refreshing holds a session that had not expired when it was claimed,
      and every successor's predecessor was rotated away before its stored expiry. */
  lemma OnlyUnexpiredAreRefreshed(s: System, events: seq<Event>, s': System)
    requires Initial(s) && Run(s, events, s')
    ensures forall c | c in s'.calls && (s'.calls[c].Claimed? || s'.calls[c].Accepted? || s'.calls[c].Rejected?) ::
      s'.calls[c].hash in s'.store.sessions && s'.calls[c].at < s'.store.sessions[s'.calls[c].hash].expiresAt
    ensures forall i | 0 <= i < |s'.store.successors| ::
      TimelyRotation(s'.store.successors[i].0, s'.store.sessions)
  {
    hide Run, Invariant;
    InitialInvariant(s);
    RunStaysTimely(s, events, s');
    hide Initial;
    forall c | c in s'.calls && (s'.calls[c].Claimed? || s'.calls[c].Accepted? || s'.calls[c].Rejected?)
      ensures s'.calls[c].hash in s'.store.sessions
      ensures s'.calls[c].at < s'.store.sessions[s'.calls[c].hash].expiresAt
    {
      assert TimelyCall(s'.calls[c], s'.store.sessions);
    }
  }

  // ----- What each commit writes -----

  /** Rows of other sessions keep every column. */
  ghost predicate OthersKept(before: map<Hash, Session>, after: map<Hash, Session>, changed: set<Hash>) {
    && before.Keys <= after.Keys && after.Keys <= before.Keys + changed
    && forall h | h in before && h !in changed :: after[h] == before[h]
  }

  /** A refresh commits the rotation and a successor that lasts ttlDays from the claim. */
  lemma IssueExact(s: System, e: Event)
    requires Enabled(s, e.step) && e.step.IssueStep?
    ensures var call, hash, newHash, next := e.step.call, s.calls[e.step.call].hash, e.step.newHash, Next(s, e);
      && OthersKept(s.store.sessions, next.store.sessions, {hash, newHash})
      && hash in next.store.sessions && newHash in next.store.sessions
      && next.store.sessions[hash].revokedAt == Some(s.calls[call].at)
      && next.store.sessions[hash].revocationReason == Some(Rotated)
      && next.store.sessions[hash].expiresAt == s.store.sessions[hash].expiresAt
      && next.store.sessions[newHash].id == e.step.newId
      && next.store.sessions[newHash].userId == s.store.sessions[hash].userId
      && next.store.sessions[newHash].expiresAt == s.calls[call].at + e.step.ttlDays * 86_400_000
      && next.store.sessions[newHash].revokedAt.None? && next.store.sessions[newHash].revocationReason.None?
      && next.store.successors == s.store.successors + [(hash, newHash)]
      && next.store.users == s.store.users && next.store.resetTokens == s.store.resetTokens
      && next.store.deletions == s.store.deletions && call !in next.calls && call !in next.locks.Values
  {
    assert e.step.newHash !in s.store.sessions;
    hide Unused, Enabled;
  }

  /** A login commits one session of the user and touches no other row. */
  lemma LoginExact(s: System, e: Event)
    requires Enabled(s, e.step) && e.step.LoginStep?
    ensures var newHash, next := e.step.newHash, Next(s, e);
      && newHash !in s.store.sessions && OthersKept(s.store.sessions, next.store.sessions, {newHash})
      && newHash in next.store.sessions
      && next.store.sessions[newHash].id == e.step.newId && next.store.sessions[newHash].userId == e.step.userId
      && next.store.sessions[newHash].expiresAt == e.now + e.step.ttlDays * 86_400_000
      && next.store.sessions[newHash].revokedAt.None? && next.store.sessions[newHash].revocationReason.None?
      && next.calls == s.calls && next.locks == s.locks && next.store.users == s.store.users
      && next.store.successors == s.store.successors
  {
    assert e.step.newHash !in s.store.sessions;
    hide Unused, Enabled;
  }

  /** The user check: the refresh goes on exactly for an active, undeleted account. */
  lemma ReadUserExact(s: System, e: Event)
    requires Enabled(s, e.step) && e.step.ReadUserStep?
    ensures var call, next := e.step.call, Next(s, e);
      && next.store == s.store && next.locks == s.locks && call in next.calls
      && var hash, at, users := s.calls[call].hash, s.calls[call].at, s.store.users;
         var userId := s.store.sessions[hash].userId;
         next.calls[call] ==
           if userId in users && users[userId].status == Active && users[userId].deletedAt == None
           then Accepted(hash, at) else Rejected(hash, at)
  {
  }

  /** A logout revokes the session of that id if it is unrevoked, and nothing else. */
  lemma LogoutExact(s: System, e: Event, h: Hash)
    requires Enabled(s, e.step) && e.step.LogoutStep? && h in s.store.sessions
    ensures Next(s, e).store.sessions.Keys == s.store.sessions.Keys
    ensures var row, after := s.store.sessions[h], Next(s, e).store.sessions[h];
      && after.id == row.id && after.userId == row.userId && after.expiresAt == row.expiresAt
      && (if row.id == e.step.sid && row.revokedAt.None?
          then after.revokedAt == Some(e.now) && after.revocationReason == Some(LoggedOut) else after == row)
  {
  }

  /** A reset starts its revocation exactly for an unused, unexpired token of a usable account. */
  lemma ResetExact(s: System, e: Event)
    requires Enabled(s, e.step) && e.step.ResetStep?
    ensures var token, tokens, next := e.step.token, s.store.resetTokens, Next(s, e);
      next.store == s.store && next.locks == s.locks
      && (e.step.call in next.calls <==>
           && token in tokens && tokens[token].usedAt == None && e.now < tokens[token].expiresAt
           && tokens[token].userId in s.store.users && s.store.users[tokens[token].userId].status == Active
           && s.store.users[tokens[token].userId].deletedAt == None)
  {
  }

  /** What a deletion request does to one user's rows and leaves of every other's. */
  lemma DeletionExact(s: System, e: Event, h: Hash)
    requires Enabled(s, e.step) && e.step.DeletionStep? && h in s.store.sessions
    ensures var userId, next := e.step.userId, Next(s, e).store;
      var accepted := userId in s.store.users && s.store.users[userId] == User(Active, None)
        && !exists d :: (
             d in s.store.deletions && s.store.deletions[d].userId == userId && s.store.deletions[d].requested);
      if accepted then
        && next.users == s.store.users[userId := User(DeletionPending, Some(e.now))]
        && next.deletions == s.store.deletions[e.step.requestId := Deletion(userId, true, e.now + 604_800_000)]
        && next.sessions.Keys == s.store.sessions.Keys
        && (s.store.sessions[h].userId != userId || s.store.sessions[h].revokedAt.Some? ==>
              next.sessions[h] == s.store.sessions[h])
        && (s.store.sessions[h].userId == userId && s.store.sessions[h].revokedAt.None? ==>
              next.sessions[h] == s.store.sessions[h].(revokedAt := Some(e.now)))
        && (forall t :: t in next.resetTokens <==>
              t in s.store.resetTokens
              && (s.store.resetTokens[t].userId != userId || s.store.resetTokens[t].usedAt.Some?))
      else next == s.store
  {
    NextDeletion(s, e);
    hide Next;
  }

  /** A login takes a deletion request back exactly before its scheduled time. */
  lemma CancelExact(s: System, e: Event)
    requires Enabled(s, e.step) && e.step.CancelStep?
    ensures var userId, requestId, rows, next := e.step.userId, e.step.requestId, s.store.deletions, Next(s, e).store;
      next.sessions == s.store.sessions && next.resetTokens == s.store.resetTokens
      && if requestId in rows && rows[requestId].userId == userId && rows[requestId].requested
           && e.now < rows[requestId].scheduledAt
         then
           && next.deletions == rows[requestId := Deletion(userId, false, rows[requestId].scheduledAt)]
           && (userId in s.store.users && s.store.users[userId].status == DeletionPending ==>
                 next.users == s.store.users[userId := User(Active, None)])
           && (userId in s.store.users && s.store.users[userId].status != DeletionPending ==>
                 next.users == s.store.users)
         else next.deletions == rows && next.users == s.store.users
  {
  }

  /** A lookup reports reuse exactly for a rotated session whose rotation is ten seconds old. */
  lemma InspectExact(s: System, e: Event)
    requires Enabled(s, e.step) && e.step.InspectStep?
    ensures var call, hash, sessions, next := e.step.call, s.calls[e.step.call].hash, s.store.sessions, Next(s, e);
      next.store == s.store && next.locks == s.locks
      && if hash in sessions && sessions[hash].revocationReason == Some(Rotated)
           && (sessions[hash].revokedAt.Some? ==> sessions[hash].revokedAt.value + 10_000 <= e.now)
         then call in next.calls && next.calls[call] == FoundReuse(sessions[hash].userId)
         else call !in next.calls
  {
  }

  /** A refresh refused for its account ends the presented session at the claim and issues nothing. */
  lemma RejectExact(s: System, e: Event)
    requires Enabled(s, e.step) && e.step.RejectStep?
    ensures var call, hash, next := e.step.call, s.calls[e.step.call].hash, Next(s, e);
      && OthersKept(s.store.sessions, next.store.sessions, {hash}) && hash in next.store.sessions
      && next.store.sessions[hash] == s.store.sessions[hash].(
           revokedAt := Some(s.calls[call].at), revocationReason := Some(AccountInactive))
      && next.store.successors == s.store.successors && next.store.users == s.store.users
      && next.store.resetTokens == s.store.resetTokens && call !in next.calls && call !in next.locks.Values
  {
  }

  /** The commit of a user-wide revocation ends the rows it locked, at the time of its snapshot, and
      no other; a reset also spends its token and removes the user's other unused ones. */
  lemma SweepCommitExact(s: System, e: Event, h: Hash, t: Hash)
    requires Enabled(s, e.step) && e.step.FinishSweepStep? && h in s.store.sessions && t in s.store.resetTokens
    ensures var sweep, next := s.calls[e.step.call].sweep, Next(s, e);
      && next.store.sessions.Keys == s.store.sessions.Keys && next.store.users == s.store.users
      && next.store.successors == s.store.successors
      && var row, after := s.store.sessions[h], next.store.sessions[h];
         && after.id == row.id && after.userId == row.userId && after.expiresAt == row.expiresAt
         && (if h in sweep.held then after.revokedAt == Some(sweep.at)
               && after.revocationReason == (
                    if sweep.cause == ForReuse then Some(RefreshReuse) else row.revocationReason)
             else after == row)
    ensures var sweep, tokens, after := s.calls[e.step.call].sweep, s.store.resetTokens, Next(s, e).store.resetTokens;
      var cause, userId, at := sweep.cause, sweep.userId, sweep.at;
      if cause == ForReset(t) then
        t in after && after[t] == ResetToken(tokens[t].userId, tokens[t].expiresAt, Some(at))
      else if cause.ForReset? && tokens[t].userId == userId && tokens[t].usedAt == None then t !in after
      else t in after && after[t] == tokens[t]
  {
    hide Release;
  }
}
