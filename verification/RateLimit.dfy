/** The shared fixed-window counter (postgres-throttler.storage.ts). */
module RateLimit {
  import opened Outcomes
  import opened Primitives
  import opened Spans

  const CLEANUP_BATCH_SIZE := 1_000
  const CLEANUP_MAX_BATCHES := 10

  /** A RateLimitCounter row; expireAt in whole milliseconds. */
  datatype Counter = Counter(points: nat, expireAt: int)

  datatype Limits = Limits(ttl: int, limit: int, blockDuration: int)

  predicate ValidLimits(limits: Limits) {
    limits.ttl >= 1 && limits.limit >= 0 && limits.blockDuration >= 1
  }

  datatype Record = Record(totalHits: nat, timeToExpire: nat, isBlocked: bool, timeToBlockExpire: nat)

  datatype ThrottlerError = InvalidWholeNumber

  predicate Expired(counter: Counter, now: int) { counter.expireAt <= now }

  /** The row left by INSERT ... ON CONFLICT DO UPDATE; `now` in milliseconds. */
  function Upsert(row: Option<Counter>, now: int, limits: Limits): Counter
    requires ValidLimits(limits)
  {
    var inserted := Counter(1, now + (if 1 > limits.limit then limits.blockDuration else limits.ttl));
    match row
    case None => inserted
    case Some(counter) =>
      if Expired(counter, now) then inserted
      else if counter.points > limits.limit then counter
      else if counter.points + 1 > limits.limit then Counter(counter.points + 1, now + limits.blockDuration)
      else Counter(counter.points + 1, counter.expireAt)
  }

  function SecondsToExpire(counter: Counter, now: int): nat {
    if counter.expireAt <= now then 0 else (counter.expireAt - now + 999) / 1000
  }

  function RecordOf(counter: Counter, now: int, limits: Limits): Record {
    var seconds := SecondsToExpire(counter, now);
    var blocked := counter.points > limits.limit;
    Record(counter.points, seconds, blocked, if blocked then seconds else 0)
  }

  function Find(counters: map<string, Counter>, key: string): Option<Counter> {
    if key in counters then Some(counters[key]) else None
  }

  /** One cleanup statement's circumstances: its clock, and the rows other transactions hold. */
  datatype Batch = Batch(clock: int, locked: set<string>)

  ghost predicate RowExpired(counters: map<string, Counter>, key: string, clock: int) {
    key in counters && counters[key].expireAt * 1000 <= clock
  }

  /** Every row still expired at the batch's clock was held by another transaction. */
  ghost predicate OnlyLockedLeft(counters: map<string, Counter>, batch: Batch) {
    forall key | RowExpired(counters, key, batch.clock) :: key in batch.locked
  }

  class PostgresThrottlerStorage {
    var counters: map<string, Counter>

    method Increment(key: string, limits: Limits, clock: int) returns (r: Result<Record, ThrottlerError>)
      modifies this
      ensures r.Success? <==> ValidLimits(limits)
      ensures !ValidLimits(limits) ==> counters == old(counters)
      ensures ValidLimits(limits) ==>
        var row := Upsert(Find(old(counters), key), ToMillis(clock), limits);
        counters == old(counters)[key := row] && r == Success(RecordOf(row, ToMillis(clock), limits))
    {
      if limits.ttl < 1 || limits.limit < 0 || limits.blockDuration < 1 {
        return Failure(InvalidWholeNumber);
      }
      var now := ToMillis(clock);
      var expireAt := now + (if 1 > limits.limit then limits.blockDuration else limits.ttl);
      var row := Counter(1, expireAt);
      if key in counters && counters[key].expireAt > now {
        row := counters[key];
        if row.points <= limits.limit {
          row := Counter(row.points + 1,
            if row.points + 1 > limits.limit then now + limits.blockDuration else row.expireAt);
        }
      }
      counters := counters[key := row];
      var isBlocked := row.points > limits.limit;
      var seconds := SecondsToExpire(row, now);
      r := Success(Record(row.points, seconds, isBlocked, if isBlocked then seconds else 0));
    }

    method Reset(key: string)
      modifies this
      ensures counters == old(counters) - {key}
    {
      counters := counters - {key};
    }

    /** Bounded batches; only rows expired at the statement that deletes them ever go, and
        a pass that ends before the last batch leaves fewer than one batch of free expired rows. */
    method PurgeExpired(batches: seq<Batch>) returns (deleted: nat, ghost removed: set<string>)
      requires |batches| == CLEANUP_MAX_BATCHES
      requires forall i, j | 0 <= i < j < |batches| :: batches[i].clock <= batches[j].clock
      modifies this
      ensures removed <= old(counters).Keys && deleted == |removed| && counters == old(counters) - removed
      ensures forall key | key in removed :: RowExpired(old(counters), key, batches[|batches| - 1].clock)
      ensures deleted < CLEANUP_BATCH_SIZE * CLEANUP_MAX_BATCHES ==>
        exists b | 0 <= b < |batches| :: OnlyLockedLeft(counters, batches[b])
    {
      deleted, removed := 0, {};
      var batch := 0;
      while batch < CLEANUP_MAX_BATCHES
        invariant 0 <= batch <= CLEANUP_MAX_BATCHES
        invariant removed <= old(counters).Keys && deleted == |removed| && counters == old(counters) - removed
        invariant forall key | key in removed :: RowExpired(old(counters), key, batches[|batches| - 1].clock)
        invariant deleted == CLEANUP_BATCH_SIZE * batch
      {
        var doomed := DeleteBatch(batches[batch]);
        deleted := deleted + |doomed|;
        removed := removed + doomed;
        batch := batch + 1;
        if |doomed| < CLEANUP_BATCH_SIZE {
          assert OnlyLockedLeft(counters, batches[batch - 1]);
          break;
        }
      }
    }

    /** DELETE ... WHERE "key" IN (SELECT ... LIMIT n FOR UPDATE SKIP LOCKED). */
    method DeleteBatch(batch: Batch) returns (doomed: set<string>)
      modifies this
      ensures counters == old(counters) - doomed && |doomed| <= CLEANUP_BATCH_SIZE
      ensures forall key | key in doomed :: RowExpired(old(counters), key, batch.clock) && key !in batch.locked
      ensures |doomed| < CLEANUP_BATCH_SIZE ==> OnlyLockedLeft(counters, batch)
    {
      var candidates := set key | key in counters
        && counters[key].expireAt * 1000 <= batch.clock && key !in batch.locked;
      doomed := {};
      while candidates != {} && |doomed| < CLEANUP_BATCH_SIZE
        invariant candidates !! doomed && |doomed| <= CLEANUP_BATCH_SIZE
        invariant candidates + doomed == set key | key in counters
          && counters[key].expireAt * 1000 <= batch.clock && key !in batch.locked
        decreases candidates
      {
        var key :| key in candidates;
        candidates, doomed := candidates - {key}, doomed + {key};
      }
      counters := counters - doomed;
    }
  }

  // ----- Runs of hits on one key -----

  /** An unblocked hit: when by the microsecond clock, and in which window. */
  datatype Allowed = Allowed(time: int, window: nat)

  /** The counter together with what the run has shown so far; windows start at the statement's
      own reading, which is in milliseconds. */
  datatype Log = Log(counter: Option<Counter>, starts: seq<int>, allowed: seq<Allowed>)

  /** One hit at a microsecond clock. */
  function Hit(log: Log, clock: int, limits: Limits): Log
    requires ValidLimits(limits)
  {
    var now := ToMillis(clock);
    var row := Upsert(log.counter, now, limits);
    var opens := log.counter.None? || Expired(log.counter.value, now);
    var starts := if opens then log.starts + [now] else log.starts;
    var allowed := if RecordOf(row, now, limits).isBlocked || starts == [] then log.allowed
                   else log.allowed + [Allowed(clock, |starts| - 1)];
    Log(Some(row), starts, allowed)
  }

  function LogAfter(hits: seq<int>, limits: Limits): Log
    requires ValidLimits(limits)
  {
    if hits == [] then Log(None, [], [])
    else Hit(LogAfter(hits[..|hits| - 1], limits), hits[|hits| - 1], limits)
  }

  function Times(allowed: seq<Allowed>): (times: seq<int>)
    ensures |times| == |allowed| && forall i | 0 <= i < |allowed| :: times[i] == allowed[i].time
  {
    seq(|allowed|, i requires 0 <= i < |allowed| => allowed[i].time)
  }

  function Windows(allowed: seq<Allowed>): (windows: seq<int>)
    ensures |windows| == |allowed| && forall i | 0 <= i < |allowed| :: windows[i] == allowed[i].window
  {
    seq(|allowed|, i requires 0 <= i < |allowed| => allowed[i].window as int)
  }

  function Counted(points: nat, limit: nat): nat { if points < limit then points else limit }

  /** How long a window lasts at least: ttl, or the block that ends it. */
  function Gap(limits: Limits): (gap: int)
    ensures gap <= limits.ttl && gap <= limits.blockDuration && gap in {limits.ttl, limits.blockDuration}
  {
    if limits.ttl <= limits.blockDuration then limits.ttl else limits.blockDuration
  }

  ghost predicate WindowsApart(log: Log, limits: Limits) {
    && (forall i | 0 <= i < |log.starts| - 1 :: log.starts[i] + Gap(limits) <= log.starts[i + 1])
    && (log.counter.None? <==> log.starts == [])
    && (log.counter.Some? ==>
         && log.starts[|log.starts| - 1] + Gap(limits) <= log.counter.value.expireAt
         && 1 <= log.counter.value.points <= limits.limit + 1)
  }

  /** Every allowed hit lies inside its window, and opens it when the limit is one. */
  ghost predicate InsideWindow(log: Log, hit: Allowed, limit: int) {
    && hit.window < |log.starts| && log.starts[hit.window] <= ToMillis(hit.time)
    && (if hit.window + 1 < |log.starts| then ToMillis(hit.time) < log.starts[hit.window + 1]
        else log.counter.Some? && ToMillis(hit.time) < log.counter.value.expireAt)
    && (limit <= 1 ==> ToMillis(hit.time) == log.starts[hit.window])
  }

  ghost predicate WithinLimit(log: Log, limits: Limits)
    requires limits.limit >= 0
  {
    && (forall i: nat | i + limits.limit < |log.allowed| ::
          log.allowed[i].window < log.allowed[i + limits.limit].window)
    && (log.counter.Some? ==>
         forall i: nat | i + Counted(log.counter.value.points, limits.limit) < |log.allowed| ::
           log.allowed[i].window + 1 < |log.starts|)
  }

  ghost predicate LogInvariant(log: Log, limits: Limits)
    requires limits.limit >= 0
  {
    && WindowsApart(log, limits) && WithinLimit(log, limits)
    && (forall i | 0 <= i < |log.allowed| :: InsideWindow(log, log.allowed[i], limits.limit))
    && Nondecreasing(Windows(log.allowed)) && Nondecreasing(Times(log.allowed))
  }

  ghost predicate NothingLater(log: Log, clock: int) {
    && (forall i | 0 <= i < |log.starts| :: log.starts[i] <= ToMillis(clock))
    && (forall i | 0 <= i < |log.allowed| :: log.allowed[i].time <= clock)
  }

  lemma UpsertBounds(row: Option<Counter>, now: int, limits: Limits)
    requires ValidLimits(limits)
    requires row.Some? ==> 1 <= row.value.points <= limits.limit + 1
    ensures var next := Upsert(row, now, limits);
      && 1 <= next.points <= limits.limit + 1
      && (if row.None? || Expired(row.value, now) then now + Gap(limits) <= next.expireAt
          else next.expireAt == row.value.expireAt || now + Gap(limits) <= next.expireAt)
  {
  }

  lemma HitKeepsWindows(log: Log, clock: int, limits: Limits)
    requires ValidLimits(limits)
    requires WindowsApart(log, limits) && NothingLater(log, clock)
    ensures WindowsApart(Hit(log, clock, limits), limits)
  {
    hide Upsert, ToMillis;
    UpsertBounds(log.counter, ToMillis(clock), limits);
    var next := Hit(log, clock, limits);
    forall i | 0 <= i < |next.starts| - 1 ensures next.starts[i] + Gap(limits) <= next.starts[i + 1] {
      if i + 1 < |log.starts| { assert log.starts[i] + Gap(limits) <= log.starts[i + 1]; }
    }
    assert next.starts != [] && next.starts[|next.starts| - 1] <= ToMillis(clock);
  }

  lemma HitKeepsInside(log: Log, clock: int, limits: Limits)
    requires ValidLimits(limits)
    requires LogInvariant(log, limits) && NothingLater(log, clock)
    ensures var next := Hit(log, clock, limits);
      forall i | 0 <= i < |next.allowed| :: InsideWindow(next, next.allowed[i], limits.limit)
  {
    var next := Hit(log, clock, limits);
    forall i | 0 <= i < |next.allowed| ensures InsideWindow(next, next.allowed[i], limits.limit) {
      if i < |log.allowed| {
        var hit := log.allowed[i];
        assert next.allowed[i] == hit && InsideWindow(log, hit, limits.limit);
        if |next.starts| > |log.starts| && hit.window + 1 == |log.starts| {
          assert next.starts[|log.starts|] == ToMillis(clock);
        }
      }
    }
  }

  lemma HitKeepsLimit(log: Log, clock: int, limits: Limits)
    requires ValidLimits(limits)
    requires LogInvariant(log, limits) && NothingLater(log, clock)
    ensures WithinLimit(Hit(log, clock, limits), limits)
  {
    var next := Hit(log, clock, limits);
    forall i: nat | i + limits.limit < |next.allowed|
      ensures next.allowed[i].window < next.allowed[i + limits.limit].window
    {
      if i + limits.limit < |log.allowed| {
        assert log.allowed[i].window < log.allowed[i + limits.limit].window;
      } else {
        assert i + limits.limit == |log.allowed| && limits.limit > 0;
        assert InsideWindow(log, log.allowed[i], limits.limit);
      }
    }
    var counted := Counted(next.counter.value.points, limits.limit);
    forall i: nat | i + counted < |next.allowed| ensures next.allowed[i].window + 1 < |next.starts| {
      if i < |log.allowed| { assert InsideWindow(log, log.allowed[i], limits.limit); }
    }
  }

  lemma HitKeepsOrder(log: Log, clock: int, limits: Limits)
    requires ValidLimits(limits)
    requires LogInvariant(log, limits) && NothingLater(log, clock)
    ensures var next := Hit(log, clock, limits);
      Nondecreasing(Windows(next.allowed)) && Nondecreasing(Times(next.allowed)) && NothingLater(next, clock)
  {
    forall i | 0 <= i < |log.allowed| ensures log.allowed[i].window < |log.starts| {
      assert InsideWindow(log, log.allowed[i], limits.limit);
    }
    var next := Hit(log, clock, limits);
    forall i, j | 0 <= i < j < |next.allowed|
      ensures next.allowed[i].window <= next.allowed[j].window && next.allowed[i].time <= next.allowed[j].time
    {
      if j < |log.allowed| {
        assert Windows(log.allowed)[i] <= Windows(log.allowed)[j];
        assert Times(log.allowed)[i] <= Times(log.allowed)[j];
      }
    }
  }

  lemma {:induction false} LogAfterInvariant(hits: seq<int>, limits: Limits)
    requires ValidLimits(limits) && Nondecreasing(hits)
    ensures LogInvariant(LogAfter(hits, limits), limits)
    ensures hits != [] ==> NothingLater(LogAfter(hits, limits), hits[|hits| - 1])
  {
    if hits != [] {
      var before, now := hits[..|hits| - 1], hits[|hits| - 1];
      LogAfterInvariant(before, limits);
      var log := LogAfter(before, limits);
      assert NothingLater(log, now) by {
        if before != [] { assert before[|before| - 1] <= now; }
      }
      HitKeepsWindows(log, now, limits);
      HitKeepsInside(log, now, limits);
      HitKeepsLimit(log, now, limits);
      HitKeepsOrder(log, now, limits);
    }
  }

  /** Points never pass limit + 1, so blocked hits are not counted. */
  lemma PointsBounded(hits: seq<int>, limits: Limits)
    requires ValidLimits(limits) && Nondecreasing(hits) && hits != []
    ensures 1 <= LogAfter(hits, limits).counter.value.points <= limits.limit + 1
  {
    LogAfterInvariant(hits, limits);
  }

  /** No window lets more than `limit` hits through. */
  lemma WindowAllowsLimit(hits: seq<int>, limits: Limits, window: nat)
    requires ValidLimits(limits) && Nondecreasing(hits)
    ensures CountIn(Windows(LogAfter(hits, limits).allowed), window, 1) <= limits.limit
  {
    LogAfterInvariant(hits, limits);
    var windows := Windows(LogAfter(hits, limits).allowed);
    assert Spaced(windows, limits.limit, 1);
    SpacedBound(windows, limits.limit, 1, window);
  }

  /** No half-open span up to one microsecond longer than the shorter of ttl and blockDuration lets
      more than twice the limit through. */
  lemma SpanAllowsTwiceLimit(hits: seq<int>, limits: Limits, start: int, length: nat)
    requires ValidLimits(limits) && Nondecreasing(hits) && length <= 1000 * Gap(limits) + 1
    ensures CountIn(Times(LogAfter(hits, limits).allowed), start, length) <= 2 * limits.limit
  {
    LogAfterInvariant(hits, limits);
    var log := LogAfter(hits, limits);
    var times := Times(log.allowed);
    forall i: nat | i + 2 * limits.limit < |times| ensures times[i] + length <= times[i + 2 * limits.limit] {
      var first, third := log.allowed[i], log.allowed[i + 2 * limits.limit];
      assert first.window < log.allowed[i + limits.limit].window < third.window by {
        assert log.allowed[i + limits.limit].window < log.allowed[i + limits.limit + limits.limit].window;
      }
      assert InsideWindow(log, first, limits.limit) && InsideWindow(log, third, limits.limit);
      StartsAscend(log, limits, first.window + 2, third.window);
      assert log.starts[first.window + 1] + Gap(limits) <= log.starts[first.window + 1 + 1];
    }
    SpacedBound(times, 2 * limits.limit, length, start);
  }

  /** With a limit of one every unblocked hit opens its window, so two whole windows lie between
      a hit and the second one after it. */
  lemma SingleHitsSpaced(hits: seq<int>, limits: Limits, start: int, length: nat)
    requires ValidLimits(limits) && limits.limit == 1 && Nondecreasing(hits) && length <= 2000 * Gap(limits) - 999
    ensures CountIn(Times(LogAfter(hits, limits).allowed), start, length) <= 2
  {
    LogAfterInvariant(hits, limits);
    var log := LogAfter(hits, limits);
    var times := Times(log.allowed);
    forall i: nat | i + 2 < |times| ensures times[i] + length <= times[i + 2] {
      var first, third := log.allowed[i], log.allowed[i + 2];
      assert first.window < log.allowed[i + 1].window < third.window by {
        assert log.allowed[i + 1].window < log.allowed[i + 1 + 1].window;
      }
      assert InsideWindow(log, first, 1) && InsideWindow(log, third, 1);
      StartsAscend(log, limits, first.window + 2, third.window);
      assert log.starts[first.window] + Gap(limits) <= log.starts[first.window + 1];
      assert log.starts[first.window + 1] + Gap(limits) <= log.starts[first.window + 1 + 1];
    }
    SpacedBound(times, 2, length, start);
  }

  lemma {:induction false} StartsAscend(log: Log, limits: Limits, i: nat, j: nat)
    requires ValidLimits(limits) && WindowsApart(log, limits) && i <= j < |log.starts|
    ensures log.starts[i] <= log.starts[j]
    decreases j - i
  {
    if i < j {
      assert log.starts[i] + Gap(limits) <= log.starts[i + 1];
      StartsAscend(log, limits, i + 1, j);
    }
  }

  // ----- The span bound is exact -----

  ghost predicate SpanBounded(hits: seq<int>, limits: Limits, start: int)
    requires ValidLimits(limits)
  {
    CountIn(Times(LogAfter(hits, limits).allowed), start, 1000 * limits.ttl) <= 2 * limits.limit
  }

  predicate InSpan(t: int, start: int, limits: Limits) { start <= t < start + 1000 * limits.ttl }

  function Seen(log: Log, limits: Limits, start: int): nat
    requires ValidLimits(limits)
  {
    CountIn(Times(log.allowed), start, 1000 * limits.ttl)
  }

  /** Where a run has got to: its last clock, the counter it left and the unblocked hits in the
      span of length ttl from `start`. */
  datatype Point = Point(clock: int, points: nat, expireAt: int, seen: nat)

  ghost predicate Reached(hits: seq<int>, limits: Limits, start: int, at: Point)
    requires ValidLimits(limits)
  {
    var log := LogAfter(hits, limits);
    && hits != [] && hits[|hits| - 1] == at.clock && Nondecreasing(hits)
    && log.counter == Some(Counter(at.points, at.expireAt)) && log.starts != [] && Seen(log, limits, start) == at.seen
  }

  lemma AllowedSeen(log: Log, next: Log, t: int, window: nat, limits: Limits, start: int)
    requires ValidLimits(limits) && next.allowed == log.allowed + [Allowed(t, window)]
    ensures Seen(next, limits, start) == Seen(log, limits, start) + (if InSpan(t, start, limits) then 1 else 0)
  {
    assert Times(next.allowed)[..|log.allowed|] == Times(log.allowed);
  }

  lemma HitOnce(hits: seq<int>, limits: Limits, clock: int)
    requires ValidLimits(limits) && Nondecreasing(hits) && (hits != [] ==> hits[|hits| - 1] <= clock)
    ensures LogAfter(hits + [clock], limits) == Hit(LogAfter(hits, limits), clock, limits)
    ensures Nondecreasing(hits + [clock])
  {
    assert (hits + [clock])[..|hits|] == hits;
    NondecreasingAppend(hits, clock);
    hide Hit, Nondecreasing;
  }

  function SeenAlso(seen: nat, clock: int, start: int, limits: Limits): nat {
    seen + (if InSpan(clock, start, limits) then 1 else 0)
  }

  lemma WindowOpens(hits: seq<int>, limits: Limits, start: int, at: Point, clock: int)
    requires ValidLimits(limits) && limits.limit >= 1 && Reached(hits, limits, start, at)
    requires at.clock <= clock && at.expireAt <= ToMillis(clock)
    ensures Reached(hits + [clock], limits, start,
      Point(clock, 1, ToMillis(clock) + limits.ttl, SeenAlso(at.seen, clock, start, limits)))
  {
    hide LogAfter, Seen, ToMillis;
    HitOnce(hits, limits, clock);
    var log := LogAfter(hits, limits);
    AllowedSeen(log, Hit(log, clock, limits), clock, |log.starts|, limits, start);
  }

  lemma WindowCounts(hits: seq<int>, limits: Limits, start: int, at: Point, clock: int)
    requires ValidLimits(limits) && at.points < limits.limit && Reached(hits, limits, start, at)
    requires at.clock <= clock && ToMillis(clock) < at.expireAt
    ensures Reached(hits + [clock], limits, start,
      Point(clock, at.points + 1, at.expireAt, SeenAlso(at.seen, clock, start, limits)))
  {
    hide LogAfter, Seen, ToMillis;
    HitOnce(hits, limits, clock);
    var log := LogAfter(hits, limits);
    AllowedSeen(log, Hit(log, clock, limits), clock, |log.starts| - 1, limits, start);
  }

  lemma WindowBlocks(hits: seq<int>, limits: Limits, start: int, at: Point, clock: int)
    requires ValidLimits(limits) && at.points == limits.limit && Reached(hits, limits, start, at)
    requires at.clock <= clock && ToMillis(clock) < at.expireAt
    ensures Reached(hits + [clock], limits, start,
      Point(clock, limits.limit + 1, ToMillis(clock) + limits.blockDuration, at.seen))
  {
    hide LogAfter, ToMillis;
    HitOnce(hits, limits, clock);
  }

  /** `count` more hits at one moment of an open window, inside the span. */
  lemma {:induction false} Burst(hits: seq<int>, limits: Limits, start: int, at: Point, clock: int, count: nat)
    returns (more: seq<int>)
    requires ValidLimits(limits) && at.points + count <= limits.limit && Reached(hits, limits, start, at)
    requires count >= 1 && at.clock <= clock && ToMillis(clock) < at.expireAt && InSpan(clock, start, limits)
    ensures Reached(more, limits, start, Point(clock, at.points + count, at.expireAt, at.seen + count))
    decreases count
  {
    hide Reached, ToMillis;
    WindowCounts(hits, limits, start, at, clock);
    more := hits + [clock];
    if count > 1 {
      more := Burst(more, limits, start, Point(clock, at.points + 1, at.expireAt, at.seen + 1), clock, count - 1);
    }
  }

  lemma FirstHit(limits: Limits, start: int, clock: int)
    requires ValidLimits(limits) && limits.limit >= 1
    ensures Reached([clock], limits, start,
      Point(clock, 1, ToMillis(clock) + limits.ttl, SeenAlso(0, clock, start, limits)))
  {
    HitOnce([], limits, clock);
    assert [] + [clock] == [clock];
    AllowedSeen(LogAfter([], limits), LogAfter([clock], limits), clock, 0, limits, start);
  }

  lemma ReachedCounts(hits: seq<int>, limits: Limits, start: int, at: Point)
    requires ValidLimits(limits) && Reached(hits, limits, start, at) && at.seen > 2 * limits.limit
    ensures Nondecreasing(hits) && !SpanBounded(hits, limits, start)
  {
    hide LogAfter;
  }

  /** A full window just before ttl, a full one blocked at once, and the start of a third. */
  lemma ShortBlockBreaksBound(limits: Limits) returns (hits: seq<int>, start: int)
    requires ValidLimits(limits) && limits.limit >= 2 && limits.ttl > limits.blockDuration
    ensures Nondecreasing(hits) && !SpanBounded(hits, limits, start)
  {
    hide Reached, SpanBounded;
    var ttl, block, limit := limits.ttl, limits.blockDuration, limits.limit;
    start := 1000 * ttl - 501;
    var second, third := 1000 * ttl - 500, 1000 * (ttl + block) - 500;
    assert ToMillis(0) == 0 && ToMillis(start) == ttl - 1 && ToMillis(second) == ttl && ToMillis(third) == ttl + block;
    hide ToMillis;
    FirstHit(limits, start, 0);
    hits := Burst([0], limits, start, Point(0, 1, ttl, 0), start, limit - 1);
    WindowOpens(hits, limits, start, Point(start, limit, ttl, limit - 1), second);
    hits := Burst(hits + [second], limits, start, Point(second, 1, 2 * ttl, limit), second, limit - 1);
    WindowBlocks(hits, limits, start, Point(second, limit, 2 * ttl, 2 * limit - 1), second);
    WindowOpens(hits + [second], limits, start, Point(second, limit + 1, ttl + block, 2 * limit - 1), third);
    hits := hits + [second] + [third];
    hits := Burst(hits, limits, start, Point(third, 1, 2 * ttl + block, 2 * limit), third, 1);
    ReachedCounts(hits, limits, start, Point(third, 2, 2 * ttl + block, 2 * limit + 1));
  }

  /** Two windows of one hit each, both blocked at once, and a third. */
  lemma ShortBlockBreaksSingleLimit(limits: Limits) returns (hits: seq<int>, start: int)
    requires ValidLimits(limits) && limits.limit == 1 && limits.ttl >= 2 * limits.blockDuration
    ensures Nondecreasing(hits) && !SpanBounded(hits, limits, start)
  {
    hide Reached, SpanBounded;
    var ttl, block := limits.ttl, limits.blockDuration;
    start := 499;
    var second, third := 1000 * block - 500, 2000 * block - 500;
    assert ToMillis(start) == 0 && ToMillis(second) == block && ToMillis(third) == 2 * block;
    hide ToMillis;
    FirstHit(limits, start, start);
    WindowBlocks([start], limits, start, Point(start, 1, ttl, 1), start);
    hits := [start] + [start];
    WindowOpens(hits, limits, start, Point(start, 2, block, 1), second);
    hits := hits + [second];
    WindowBlocks(hits, limits, start, Point(second, 1, block + ttl, 2), second);
    hits := hits + [second];
    WindowOpens(hits, limits, start, Point(second, 2, 2 * block, 2), third);
    hits := hits + [third];
    ReachedCounts(hits, limits, start, Point(third, 1, 2 * block + ttl, 3));
  }

  /** The configurations that keep the bound. */
  predicate BlockLongEnough(limits: Limits) {
    || limits.limit == 0
    || (limits.limit == 1 && limits.ttl < 2 * limits.blockDuration)
    || limits.ttl <= limits.blockDuration
  }

  lemma {:induction false} ZeroAllowsNothing(hits: seq<int>, limits: Limits)
    requires ValidLimits(limits) && limits.limit == 0
    ensures LogAfter(hits, limits).allowed == []
    ensures LogAfter(hits, limits).counter.Some? ==> LogAfter(hits, limits).counter.value.points >= 1
  {
    if hits != [] { ZeroAllowsNothing(hits[..|hits| - 1], limits); }
  }

  lemma LongBlockKeepsBound(limits: Limits, hits: seq<int>, start: int)
    requires ValidLimits(limits) && BlockLongEnough(limits) && Nondecreasing(hits)
    ensures SpanBounded(hits, limits, start)
  {
    if limits.limit == 0 {
      ZeroAllowsNothing(hits, limits);
    } else if limits.ttl <= limits.blockDuration {
      SpanAllowsTwiceLimit(hits, limits, start, 1000 * limits.ttl);
    } else {
      SingleHitsSpaced(hits, limits, start, 1000 * limits.ttl);
    }
  }

  /** For every valid limit: all runs keep every span of length ttl within twice the limit exactly
      when the limit is zero, or it is one and the block longer than half of ttl, or the block is
      at least ttl. */
  lemma SpanBoundExact(limits: Limits)
    requires ValidLimits(limits)
    ensures (forall hits: seq<int>, start: int :: Nondecreasing(hits) ==> SpanBounded(hits, limits, start))
      <==> BlockLongEnough(limits)
  {
    hide SpanBounded;
    if BlockLongEnough(limits) {
      forall hits: seq<int>, start: int | Nondecreasing(hits) ensures SpanBounded(hits, limits, start) {
        LongBlockKeepsBound(limits, hits, start);
      }
    } else if limits.limit == 1 {
      var hits, start := ShortBlockBreaksSingleLimit(limits);
    } else {
      var hits, start := ShortBlockBreaksBound(limits);
    }
  }

  // ----- Purging is invisible -----

  datatype Operation =
    | Increment(key: string, limits: Limits)
    | Reset(key: string)
    | Purge(removed: set<string>)

  /** An operation and the database clock of its statement. */
  datatype Event = Event(clock: int, operation: Operation)

  function Next(counters: map<string, Counter>, e: Event): map<string, Counter> {
    match e.operation
    case Increment(key, limits) =>
      if ValidLimits(limits) then counters[key := Upsert(Find(counters, key), ToMillis(e.clock), limits)] else counters
    case Reset(key) => counters - {key}
    case Purge(removed) => counters - removed
  }

  function Answer(counters: map<string, Counter>, e: Event): seq<Result<Record, ThrottlerError>> {
    match e.operation
    case Increment(key, limits) =>
      if !ValidLimits(limits) then [Failure(InvalidWholeNumber)] else
      var now := ToMillis(e.clock);
      [Success(RecordOf(Upsert(Find(counters, key), now, limits), now, limits))]
    case _ => []
  }

  /** The answers of all increments of a run, in order. */
  function Answers(counters: map<string, Counter>, events: seq<Event>): seq<Result<Record, ThrottlerError>>
    decreases |events|
  {
    if events == [] then []
    else Answer(counters, events[0]) + Answers(Next(counters, events[0]), events[1..])
  }

  function WithoutPurges(events: seq<Event>): seq<Event> {
    if events == [] then []
    else (if events[0].operation.Purge? then [] else [events[0]]) + WithoutPurges(events[1..])
  }

  ghost predicate ClockOrder(events: seq<Event>, since: int)
    decreases |events|
  {
    events == [] || (since <= events[0].clock && ClockOrder(events[1..], events[0].clock))
  }

  /** Every purge of the run deletes rows that are expired by its own clock. */
  ghost predicate PurgesExpired(counters: map<string, Counter>, events: seq<Event>)
    decreases |events|
  {
    events == [] || (
      && (events[0].operation.Purge? ==>
           forall key | key in events[0].operation.removed && key in counters ::
             RowExpired(counters, key, events[0].clock))
      && PurgesExpired(Next(counters, events[0]), events[1..]))
  }

  /** The row an increment at this clock would still see as current. */
  function Current(counters: map<string, Counter>, key: string, clock: int): Option<Counter> {
    if key in counters && !Expired(counters[key], ToMillis(clock)) then Some(counters[key]) else None
  }

  ghost predicate Alike(a: map<string, Counter>, b: map<string, Counter>, clock: int) {
    forall key :: Current(a, key, clock) == Current(b, key, clock)
  }

  lemma AlikeLater(a: map<string, Counter>, b: map<string, Counter>, clock: int, later: int)
    requires Alike(a, b, clock) && clock <= later
    ensures Alike(a, b, later)
  {
    forall key ensures Current(a, key, later) == Current(b, key, later) {
      assert Current(a, key, clock) == Current(b, key, clock);
    }
  }

  lemma AlikeStep(a: map<string, Counter>, b: map<string, Counter>, e: Event)
    requires Alike(a, b, e.clock) && !e.operation.Purge?
    ensures Answer(a, e) == Answer(b, e) && Alike(Next(a, e), Next(b, e), e.clock)
  {
    match e.operation
    case Increment(key, limits) =>
      assert Current(a, key, e.clock) == Current(b, key, e.clock);
      if ValidLimits(limits) {
        var now := ToMillis(e.clock);
        assert Upsert(Find(a, key), now, limits) == Upsert(Find(b, key), now, limits);
        forall k ensures Current(Next(a, e), k, e.clock) == Current(Next(b, e), k, e.clock) {
          assert Current(a, k, e.clock) == Current(b, k, e.clock);
        }
      }
    case Reset(key) =>
      forall k ensures Current(Next(a, e), k, e.clock) == Current(Next(b, e), k, e.clock) {
        assert Current(a, k, e.clock) == Current(b, k, e.clock);
      }
  }

  lemma {:induction false} PurgesInvisibleFrom(
    a: map<string, Counter>, b: map<string, Counter>, events: seq<Event>, since: int)
    requires Alike(a, b, since) && ClockOrder(events, since) && PurgesExpired(a, events)
    ensures Answers(a, events) == Answers(b, WithoutPurges(events))
    decreases |events|
  {
    if events != [] {
      hide Alike, Next, Answer;
      var e := events[0];
      AlikeLater(a, b, since, e.clock);
      if e.operation.Purge? {
        PurgesInvisibleFrom(Next(a, e), b, events[1..], e.clock);
        assert WithoutPurges(events) == WithoutPurges(events[1..]);
      } else {
        AlikeStep(a, b, e);
        PurgesInvisibleFrom(Next(a, e), Next(b, e), events[1..], e.clock);
        assert WithoutPurges(events)[1..] == WithoutPurges(events[1..]);
      }
    }
  }

  /** Whatever is purged and whenever, every increment answers as in the run without purging. */
  lemma PurgesInvisible(counters: map<string, Counter>, events: seq<Event>, since: int)
    requires ClockOrder(events, since) && PurgesExpired(counters, events)
    ensures Answers(counters, events) == Answers(counters, WithoutPurges(events))
  {
    PurgesInvisibleFrom(counters, counters, events, since);
  }
}
