/** What the throttler answers, told by clocks and counts (postgres-throttler.storage.ts). */
module RateLimitAnswers {
  import opened Outcomes
  import opened Primitives
  import opened RateLimit
  import opened Spans

  /** Increments of one key, all under the same limits. */
  function Hits(key: string, limits: Limits, clocks: seq<int>): (events: seq<Event>)
    ensures |events| == |clocks|
    ensures forall i | 0 <= i < |clocks| :: events[i] == Event(clocks[i], Increment(key, limits))
  {
    seq(|clocks|, i requires 0 <= i < |clocks| => Event(clocks[i], Increment(key, limits)))
  }

  /** The end of the window after its hit i: ttl after the first hit, or, once hit limit + 1 has
      come, the block's length after that hit. Hits are counted from zero. */
  function WindowEnd(clocks: seq<int>, limits: Limits, i: nat): int
    requires i < |clocks| && limits.limit >= 0
  {
    if i < limits.limit then ToMillis(clocks[0]) + limits.ttl
    else ToMillis(clocks[limits.limit]) + limits.blockDuration
  }

  /** The hits of one window: each comes before the window ends as the hits so far have it. */
  ghost predicate OneWindow(clocks: seq<int>, limits: Limits)
    requires limits.limit >= 0
  {
    Nondecreasing(clocks) && forall i | 0 < i < |clocks| :: ToMillis(clocks[i]) < WindowEnd(clocks, limits, i - 1)
  }

  /** No counter of the key is running at the clock. */
  predicate Closed(counters: map<string, Counter>, key: string, clock: int) {
    key !in counters || counters[key].expireAt <= ToMillis(clock)
  }

  /** `seconds` is the least whole number of seconds that reaches `end`. */
  predicate LeastSeconds(seconds: nat, now: int, end: int) {
    now + 1000 * seconds >= end && (seconds > 0 ==> now + 1000 * (seconds - 1) < end)
  }

  /** The answer to hit i of a window. */
  ghost predicate AnswersHit(answer: Result<Record, ThrottlerError>, clocks: seq<int>, limits: Limits, i: nat)
    requires i < |clocks| && limits.limit >= 0
  {
    && answer.Success?
    && (answer.value.isBlocked <==> i + 1 > limits.limit)
    && answer.value.totalHits == (if i + 1 <= limits.limit then i + 1 else limits.limit + 1)
    && LeastSeconds(answer.value.timeToExpire, ToMillis(clocks[i]), WindowEnd(clocks, limits, i))
    && answer.value.timeToBlockExpire == (if i + 1 > limits.limit then answer.value.timeToExpire else 0)
  }

  /** The counter after hit i of a window. */
  function CounterAfter(clocks: seq<int>, limits: Limits, i: nat): Counter
    requires i < |clocks| && limits.limit >= 0
  {
    Counter(if i + 1 <= limits.limit then i + 1 else limits.limit + 1, WindowEnd(clocks, limits, i))
  }

  lemma SecondsExact(counter: Counter, now: int)
    ensures LeastSeconds(SecondsToExpire(counter, now), now, counter.expireAt)
  {
  }

  lemma HitAnswered(row: Counter, clocks: seq<int>, limits: Limits, i: nat)
    requires ValidLimits(limits) && i < |clocks| && row == CounterAfter(clocks, limits, i)
    ensures AnswersHit(Success(RecordOf(row, ToMillis(clocks[i]), limits)), clocks, limits, i)
  {
    hide SecondsToExpire, ToMillis;
    SecondsExact(row, ToMillis(clocks[i]));
  }

  /** The row after hit i follows from the one after hit i - 1. */
  lemma NextCounter(row: Option<Counter>, clocks: seq<int>, limits: Limits, i: nat)
    requires ValidLimits(limits) && OneWindow(clocks, limits) && i < |clocks|
    requires if i == 0 then row.None? || Expired(row.value, ToMillis(clocks[0]))
      else row == Some(CounterAfter(clocks, limits, i - 1))
    ensures Upsert(row, ToMillis(clocks[i]), limits) == CounterAfter(clocks, limits, i)
  {
    hide ToMillis;
  }

  /** A running window from its hit i on: the answers of the hits still to come. */
  lemma {:induction false} HitsFrom(counters: map<string, Counter>, key: string, limits: Limits, clocks: seq<int>,
      i: nat)
    requires ValidLimits(limits) && OneWindow(clocks, limits) && i < |clocks|
    requires if i == 0 then Closed(counters, key, clocks[0])
      else key in counters && counters[key] == CounterAfter(clocks, limits, i - 1)
    ensures var answers := Answers(counters, Hits(key, limits, clocks)[i..]);
      |answers| == |clocks| - i && forall k | 0 <= k < |answers| :: AnswersHit(answers[k], clocks, limits, i + k)
    decreases |clocks| - i
  {
    hide OneWindow, CounterAfter, AnswersHit, RecordOf, Upsert, ToMillis;
    var events := Hits(key, limits, clocks)[i..];
    var e := Event(clocks[i], Increment(key, limits));
    assert events[0] == e && events[1..] == Hits(key, limits, clocks)[i + 1..];
    NextCounter(Find(counters, key), clocks, limits, i);
    var next := Next(counters, e);
    assert next[key] == CounterAfter(clocks, limits, i);
    HitAnswered(next[key], clocks, limits, i);
    if i + 1 < |clocks| {
      HitsFrom(next, key, limits, clocks, i + 1);
      var answers, rest := Answers(counters, events), Answers(next, events[1..]);
      assert answers == Answer(counters, e) + rest;
      forall k | 0 <= k < |answers| ensures AnswersHit(answers[k], clocks, limits, i + k) {
        if k > 0 { assert answers[k] == rest[k - 1] && i + k == i + 1 + (k - 1); }
      }
    } else {
      assert events[1..] == [];
    }
  }

  /** Of the hits of one window the first `limit` are let through and every later one is blocked;
      each answer counts the hits up to one past the limit and tells the least whole number of
      seconds to the window's end, and to the block's end for a blocked hit. */
  lemma WindowAnswers(counters: map<string, Counter>, key: string, limits: Limits, clocks: seq<int>)
    requires ValidLimits(limits) && clocks != [] && OneWindow(clocks, limits) && Closed(counters, key, clocks[0])
    ensures var answers := Answers(counters, Hits(key, limits, clocks));
      |answers| == |clocks| && forall i | 0 <= i < |clocks| :: AnswersHit(answers[i], clocks, limits, i)
  {
    hide AnswersHit, Answers, OneWindow;
    HitsFrom(counters, key, limits, clocks, 0);
    assert Hits(key, limits, clocks)[0..] == Hits(key, limits, clocks);
    var answers := Answers(counters, Hits(key, limits, clocks));
    forall i | 0 <= i < |clocks| ensures AnswersHit(answers[i], clocks, limits, i) {
      assert AnswersHit(answers[i], clocks, limits, 0 + i);
    }
  }

  /** One hit of a run is an increment of the table: it leaves the same row, and is counted as
      allowed exactly when the answer is not blocked. */
  lemma HitIsIncrement(counters: map<string, Counter>, key: string, log: Log, limits: Limits, clock: int)
    requires ValidLimits(limits) && log.counter == Find(counters, key) && WindowsApart(log, limits)
    ensures var e, next := Event(clock, Increment(key, limits)), Hit(log, clock, limits);
      && next.counter == Find(Next(counters, e), key)
      && |Answer(counters, e)| == 1 && Answer(counters, e)[0].Success?
      && Times(next.allowed)
         == Times(log.allowed) + (if Answer(counters, e)[0].value.isBlocked then [] else [clock])
  {
  }
}
