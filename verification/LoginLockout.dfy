/** Claiming password verifications (auth.service.ts, reserveLoginAttempt). */
module LoginLockout {
  import opened Outcomes
  import opened Primitives
  import opened Spans

  const MAX_LOGIN_ATTEMPTS := 5

  /** Fifteen minutes in microseconds, the unit of the database clock. */
  const LOCKOUT := 15 * 60_000_000

  /** What storing the end of a lock as TIMESTAMP(3) can take off it. */
  const ROUNDING := 499

  /** The columns of a User row that the claim reads and writes; lockUntil in milliseconds. */
  datatype Lockout = Lockout(failedLoginAttempts: nat, lockUntil: Option<int>)

  /** The row the single UPDATE matches, by the clock in microseconds. */
  predicate Claimable(row: Lockout, now: int) {
    row.lockUntil.None? || row.lockUntil.value * 1000 <= now
  }

  /** The row after a claim: an expired lock starts a new count, the fifth failure locks. */
  function Claimed(row: Lockout, now: int): Lockout {
    var attempts := if row.lockUntil.None? then row.failedLoginAttempts + 1 else 1;
    Lockout(attempts, if attempts >= MAX_LOGIN_ATTEMPTS then Some(ToMillis(now + LOCKOUT)) else None)
  }

  function Attempt(row: Lockout, now: int): Lockout {
    if Claimable(row, now) then Claimed(row, now) else row
  }

  class UserRow {
    var failedLoginAttempts: nat
    var lockUntil: Option<int>

    function Row(): Lockout
      reads this
    {
      Lockout(failedLoginAttempts, lockUntil)
    }

    method ReserveLoginAttempt(now: int) returns (claimed: bool)
      modifies this
      ensures claimed == Claimable(old(Row()), now)
      ensures Row() == Attempt(old(Row()), now)
    {
      if lockUntil.Some? && lockUntil.value * 1000 > now { return false; }
      var attempts := if lockUntil.None? then failedLoginAttempts + 1 else 1;
      failedLoginAttempts := attempts;
      lockUntil := if attempts >= MAX_LOGIN_ATTEMPTS then Some(ToMillis(now + LOCKOUT)) else None;
      claimed := true;
    }

    /** A successful login clears the count and the lock. */
    method ResetAfterSuccess()
      modifies this
      ensures Row() == Lockout(0, None)
    {
      failedLoginAttempts := 0;
      lockUntil := None;
    }
  }

  // ----- Runs of attempts -----

  /** The row after the attempts, which are serialized by the row lock in this order. */
  function RowAfter(row: Lockout, attempts: seq<int>): Lockout {
    if attempts == [] then row
    else Attempt(RowAfter(row, attempts[..|attempts| - 1]), attempts[|attempts| - 1])
  }

  /** The times at which a verification was granted. */
  function Grants(row: Lockout, attempts: seq<int>): seq<int> {
    if attempts == [] then []
    else
      var before, now := attempts[..|attempts| - 1], attempts[|attempts| - 1];
      Grants(row, before) + (if Claimable(RowAfter(row, before), now) then [now] else [])
  }

  /** Which of the granted claims set the lock. */
  ghost function Locking(row: Lockout, attempts: seq<int>): (locking: seq<bool>)
    ensures |locking| == |Grants(row, attempts)|
  {
    if attempts == [] then []
    else
      var before, now := attempts[..|attempts| - 1], attempts[|attempts| - 1];
      var state := RowAfter(row, before);
      Locking(row, before) + (if Claimable(state, now) then [Claimed(state, now).lockUntil.Some?] else [])
  }

  /** Granted claims after the last one that set the lock. */
  ghost function TrailingUnlocked(locking: seq<bool>): nat {
    if locking == [] || locking[|locking| - 1] then 0 else 1 + TrailingUnlocked(locking[..|locking| - 1])
  }

  /** How the row remembers the claims granted so far. */
  ghost predicate Remembers(row: Lockout, grants: seq<int>, locking: seq<bool>) {
    && |grants| == |locking|
    && match row.lockUntil
       case None =>
         TrailingUnlocked(locking) <= row.failedLoginAttempts && (locking != [] ==> !locking[|locking| - 1])
       case Some(until) =>
         TrailingUnlocked(locking) == 0 && (grants != [] ==> grants[|grants| - 1] + LOCKOUT - ROUNDING <= until * 1000)
  }

  /** A claim granted after a locking one comes a lockout later, but for the rounding. */
  ghost predicate LockHolds(grants: seq<int>, locking: seq<bool>)
    requires |grants| == |locking|
  {
    forall i | 0 <= i < |grants| - 1 && locking[i] :: grants[i] + LOCKOUT - ROUNDING <= grants[i + 1]
  }

  /** Of any five granted claims in a row, one sets the lock. */
  ghost predicate LocksOften(locking: seq<bool>) {
    forall i: nat | i + MAX_LOGIN_ATTEMPTS <= |locking| :: LocksWithinFive(locking, i)
  }

  ghost predicate LocksWithinFive(locking: seq<bool>, i: nat) {
    exists j :: i <= j < i + MAX_LOGIN_ATTEMPTS && j < |locking| && locking[j]
  }

  lemma {:induction false} TrailingExact(locking: seq<bool>, k: nat)
    requires TrailingUnlocked(locking) < k <= |locking|
    ensures exists j :: |locking| - k <= j < |locking| && locking[j]
  {
    if locking[|locking| - 1] {
    } else {
      var front := locking[..|locking| - 1];
      TrailingExact(front, k - 1);
      var j :| |front| - (k - 1) <= j < |front| && front[j];
      assert locking[j];
    }
  }

  lemma {:induction false} GrantsFollowTime(row: Lockout, attempts: seq<int>)
    requires Nondecreasing(attempts)
    ensures Nondecreasing(Grants(row, attempts))
    ensures forall g | g in Grants(row, attempts) :: attempts != [] && g <= attempts[|attempts| - 1]
  {
    if attempts != [] {
      var before := attempts[..|attempts| - 1];
      GrantsFollowTime(row, before);
      var grants := Grants(row, before);
      forall i | 0 <= i < |grants| ensures grants[i] <= attempts[|attempts| - 1] { assert grants[i] in grants; }
    }
  }

  /** One more granted claim keeps the history properties. */
  lemma GrantKeepsHistory(state: Lockout, now: int, grants: seq<int>, locking: seq<bool>)
    requires Claimable(state, now) && Remembers(state, grants, locking)
    requires LockHolds(grants, locking) && LocksOften(locking)
    ensures var next, locks := Claimed(state, now), locking + [Claimed(state, now).lockUntil.Some?];
      Remembers(next, grants + [now], locks) && LockHolds(grants + [now], locks) && LocksOften(locks)
  {
    var next := Claimed(state, now);
    var times, locks := grants + [now], locking + [next.lockUntil.Some?];
    assert locks[..|locks| - 1] == locking;
    assert TrailingUnlocked(locks) < MAX_LOGIN_ATTEMPTS;
    forall i: nat | i + MAX_LOGIN_ATTEMPTS <= |locks| ensures LocksWithinFive(locks, i) {
      if i + MAX_LOGIN_ATTEMPTS == |locks| {
        TrailingExact(locks, MAX_LOGIN_ATTEMPTS);
      } else {
        assert LocksWithinFive(locking, i);
        var j :| i <= j < i + MAX_LOGIN_ATTEMPTS && j < |locking| && locking[j];
        assert locks[j];
      }
    }
  }

  lemma {:induction false} AttemptHistory(row: Lockout, attempts: seq<int>)
    requires Nondecreasing(attempts)
    ensures var grants, locking := Grants(row, attempts), Locking(row, attempts);
      Remembers(RowAfter(row, attempts), grants, locking) && LockHolds(grants, locking) && LocksOften(locking)
  {
    if attempts != [] {
      var before, now := attempts[..|attempts| - 1], attempts[|attempts| - 1];
      AttemptHistory(row, before);
      if Claimable(RowAfter(row, before), now) {
        GrantKeepsHistory(RowAfter(row, before), now, Grants(row, before), Locking(row, before));
      } else {
        assert Grants(row, attempts) == Grants(row, before) && Locking(row, attempts) == Locking(row, before);
      }
    }
  }

  lemma GrantsSpaced(grants: seq<int>, locking: seq<bool>)
    requires |grants| == |locking| && Nondecreasing(grants)
    requires LockHolds(grants, locking) && LocksOften(locking)
    ensures Spaced(grants, MAX_LOGIN_ATTEMPTS, LOCKOUT - ROUNDING)
  {
    forall i: nat | i + MAX_LOGIN_ATTEMPTS < |grants|
      ensures grants[i] + LOCKOUT - ROUNDING <= grants[i + MAX_LOGIN_ATTEMPTS]
    {
      assert LocksWithinFive(locking, i);
      var j :| i <= j < i + MAX_LOGIN_ATTEMPTS && j < |locking| && locking[j];
      assert grants[i] <= grants[j] && grants[j + 1] <= grants[i + MAX_LOGIN_ATTEMPTS];
    }
  }

  /** With no successful login in between, no span half a millisecond short of 15 minutes grants
      more than five verifications, whatever the interleaving of attempts and wherever it starts. */
  lemma AtMostFivePerLockout(row: Lockout, attempts: seq<int>, start: int, length: nat)
    requires Nondecreasing(attempts) && length <= LOCKOUT - ROUNDING
    ensures CountIn(Grants(row, attempts), start, length) <= MAX_LOGIN_ATTEMPTS
  {
    hide Grants;
    var grants := Grants(row, attempts);
    AttemptHistory(row, attempts);
    GrantsFollowTime(row, attempts);
    GrantsSpaced(grants, Locking(row, attempts));
    assert Spaced(grants, MAX_LOGIN_ATTEMPTS, length);
    SpacedBound(grants, MAX_LOGIN_ATTEMPTS, length, start);
  }

  // ----- The bound is exact -----

  /** A run of attempts, where it leaves the row and how many grants it made in the span. */
  ghost predicate Reached(attempts: seq<int>, clock: int, row: Lockout, start: int, length: nat, granted: nat) {
    && (attempts != [] ==> attempts[|attempts| - 1] <= clock) && Nondecreasing(attempts)
    && RowAfter(Lockout(0, None), attempts) == row
    && CountIn(Grants(Lockout(0, None), attempts), start, length) == granted
  }

  lemma OneMoreGrant(attempts: seq<int>, clock: int, row: Lockout, start: int, length: nat, granted: nat, now: int)
    requires Reached(attempts, clock, row, start, length, granted) && Claimable(row, now)
    requires clock <= now && start <= now < start + length
    ensures Reached(attempts + [now], now, Claimed(row, now), start, length, granted + 1)
  {
    hide Claimed, Claimable;
    var more := attempts + [now];
    assert more[..|attempts|] == attempts;
    NondecreasingAppend(attempts, now);
    var grants := Grants(Lockout(0, None), attempts);
    assert Grants(Lockout(0, None), more) == grants + [now];
    assert (grants + [now])[..|grants|] == grants;
  }

  /** The first `count` failures of a fresh row, all at one moment. */
  lemma {:induction false} FailuresInARow(count: nat, now: int, length: nat) returns (attempts: seq<int>)
    requires count < MAX_LOGIN_ATTEMPTS && length >= 1
    ensures Reached(attempts, now, Lockout(count, None), now, length, count)
  {
    attempts := [];
    if count > 0 {
      attempts := FailuresInARow(count - 1, now, length);
      OneMoreGrant(attempts, now, Lockout(count - 1, None), now, length, count - 1, now);
      attempts := attempts + [now];
    }
  }

  /** Five attempts at once on a fresh row are all granted, so the bound is reached. */
  lemma FiveAreGranted(now: int) returns (attempts: seq<int>)
    ensures Nondecreasing(attempts)
    ensures CountIn(Grants(Lockout(0, None), attempts), now, LOCKOUT - ROUNDING) == MAX_LOGIN_ATTEMPTS
  {
    hide Reached;
    attempts := FailuresInARow(4, now, LOCKOUT - ROUNDING);
    OneMoreGrant(attempts, now, Lockout(4, None), now, LOCKOUT - ROUNDING, 4, now);
    attempts := attempts + [now];
    ReachedCounts(attempts, now, Claimed(Lockout(4, None), now), now, LOCKOUT - ROUNDING, 5);
  }

  /** Five grants at the worst moment of a millisecond, and the sixth when the stored lock ends. */
  lemma SixInAFullSpan(length: nat) returns (attempts: seq<int>, start: int)
    requires length > LOCKOUT - ROUNDING
    ensures Nondecreasing(attempts)
    ensures CountIn(Grants(Lockout(0, None), attempts), start, length) == MAX_LOGIN_ATTEMPTS + 1
  {
    hide Reached;
    start := ROUNDING;
    attempts := FailuresInARow(4, start, length);
    OneMoreGrant(attempts, start, Lockout(4, None), start, length, 4, start);
    attempts := attempts + [start];
    assert Claimed(Lockout(4, None), start) == Lockout(5, Some(LOCKOUT / 1000));
    OneMoreGrant(attempts, start, Lockout(5, Some(LOCKOUT / 1000)), start, length, 5, LOCKOUT);
    attempts := attempts + [LOCKOUT];
    ReachedCounts(attempts, LOCKOUT, Claimed(Lockout(5, Some(LOCKOUT / 1000)), LOCKOUT), start, length, 6);
  }

  /** A row with no lock that has counted nothing, or one whose lock has ended. */
  predicate StartsOver(row: Lockout, now: int) {
    if row.lockUntil.Some? then row.lockUntil.value * 1000 <= now else row.failedLoginAttempts == 0
  }

  /** From such a row up to five failures in a row are all granted and counted from one; the fifth
      locks the row for fifteen minutes. */
  lemma {:induction false} FailuresCounted(row: Lockout, times: seq<int>)
    requires 1 <= |times| <= 5 && StartsOver(row, times[0])
    ensures Grants(row, times) == times
    ensures RowAfter(row, times) ==
      if |times| < 5 then Lockout(|times|, None) else Lockout(5, Some(ToMillis(times[4] + 900_000_000)))
  {
    var before, now := times[..|times| - 1], times[|times| - 1];
    AttemptsSnoc(row, times);
    hide RowAfter, Grants, Attempt, ToMillis;
    if before == [] {
      FirstFailure(row, now);
    } else {
      FailuresCounted(row, before);
      NextFailure(|before|, now);
    }
    assert times == before + [now];
  }

  /** Until the lock ends nothing is granted and nothing counted. */
  lemma {:induction false} LockedOut(row: Lockout, attempts: seq<int>, later: seq<int>)
    requires var lock := RowAfter(row, attempts).lockUntil;
      lock.Some? && forall i | 0 <= i < |later| :: later[i] < 1000 * lock.value
    ensures RowAfter(row, attempts + later) == RowAfter(row, attempts)
    ensures Grants(row, attempts + later) == Grants(row, attempts)
  {
    if later == [] {
      assert attempts + later == attempts;
    } else {
      var n := |later| - 1;
      LockedOut(row, attempts, later[..n]);
      assert (attempts + later)[..|attempts| + n] == attempts + later[..n];
      AttemptsSnoc(row, attempts + later);
      hide RowAfter, Grants;
    }
  }

  lemma AttemptsSnoc(row: Lockout, times: seq<int>)
    requires times != []
    ensures var before, now := times[..|times| - 1], times[|times| - 1];
      && RowAfter(row, times) == Attempt(RowAfter(row, before), now)
      && Grants(row, times) == Grants(row, before) + (if Claimable(RowAfter(row, before), now) then [now] else [])
      && (before == [] ==> RowAfter(row, before) == row && Grants(row, before) == [])
  {
  }

  lemma FirstFailure(row: Lockout, now: int)
    requires StartsOver(row, now)
    ensures Claimable(row, now) && Attempt(row, now) == Lockout(1, None)
  {
    hide ToMillis;
  }

  lemma NextFailure(count: nat, now: int)
    requires 1 <= count < 5
    ensures Claimable(Lockout(count, None), now)
    ensures Attempt(Lockout(count, None), now) ==
      if count + 1 < 5 then Lockout(count + 1, None) else Lockout(5, Some(ToMillis(now + 900_000_000)))
  {
    hide ToMillis;
  }

  lemma ReachedCounts(attempts: seq<int>, clock: int, row: Lockout, start: int, length: nat, granted: nat)
    requires Reached(attempts, clock, row, start, length, granted)
    ensures Nondecreasing(attempts) && CountIn(Grants(Lockout(0, None), attempts), start, length) == granted
  {
  }

  ghost predicate FiveAtMost(row: Lockout, attempts: seq<int>, start: int, length: nat) {
    CountIn(Grants(row, attempts), start, length) <= MAX_LOGIN_ATTEMPTS
  }

  /** Five verifications bound every span of a length exactly when it stays 499 microseconds short
      of 15 minutes. */
  lemma LockoutBoundExact(length: nat)
    ensures (forall row: Lockout, attempts: seq<int>, start: int ::
        Nondecreasing(attempts) ==> FiveAtMost(row, attempts, start, length))
      <==> length <= LOCKOUT - ROUNDING
  {
    hide Grants, RowAfter;
    if length <= LOCKOUT - ROUNDING {
      forall row: Lockout, attempts: seq<int>, start: int | Nondecreasing(attempts)
        ensures FiveAtMost(row, attempts, start, length)
      {
        AtMostFivePerLockout(row, attempts, start, length);
      }
    } else {
      var attempts, start := SixInAFullSpan(length);
      assert !FiveAtMost(Lockout(0, None), attempts, start, length);
    }
  }
}
