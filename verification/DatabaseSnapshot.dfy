/** The single-flight database snapshot behind the metrics page: one collection at a time, a timeout,
    a fresh cache and a stale fallback (media-observability.service.ts). */
module DatabaseSnapshot {
  import opened Outcomes

  type Gauges = nat

  /** The collection query itself. */
  datatype Operation = Running | Replied(gauges: Gauges) | Broke

  /** What `withTimeout` makes of it: the first of the reply and the timer decides. */
  datatype Promise = Waiting | Resolved(gauges: Gauges) | TimedOut | Rejected

  datatype Outcome = SuccessOutcome | TimeoutOutcome | ErrorOutcome

  /** `released` says that the handler clearing `activeCollection` once the query settles has run. */
  datatype Collection = Collection(operation: Operation, promise: Promise, outcome: Option<Outcome>, released: bool)

  datatype Cache = Cache(gauges: Gauges, collectedAt: int, writer: nat)

  datatype Origin = FromCache(age: int, writer: nat) | FromCollection(collection: nat) | Nowhere

  datatype Rendered = Rendered(gauges: Option<Gauges>, available: bool, stale: bool, cacheAgeSeconds: nat)

  datatype Scrape = Awaiting(collection: nat) | Answered(snapshot: Rendered, origin: Origin)

  datatype Config = Config(cacheTtl: nat, staleTtl: nat)

  datatype State = State(
    clock: int, cache: Option<Cache>, active: Option<nat>, collections: seq<Collection>,
    counters: map<Outcome, nat>, scrapes: seq<Scrape>)

  function Value(counters: map<Outcome, nat>, outcome: Outcome): nat {
    if outcome in counters then counters[outcome] else 0
  }

  function AgeSeconds(age: int): nat {
    if age < 0 then 0 else age / 1000
  }

  function FromCacheEntry(cache: Cache, available: bool, stale: bool, now: int): Scrape {
    Answered(Rendered(Some(cache.gauges), available, stale, AgeSeconds(now - cache.collectedAt)),
             FromCache(now - cache.collectedAt, cache.writer))
  }

  const UNAVAILABLE := Answered(Rendered(None, false, false, 0), Nowhere)

  /** The events of the process; every event that reads the clock carries its reading. */
  datatype Step =
    | Arrive(now: int)
    | OperationSettles(collection: nat, reply: Option<Gauges>)
    | TimerFires(collection: nat)
    | PromiseHandler(collection: nat, now: int)
    | Release(collection: nat)
    | Resume(scrape: nat, now: int)

  predicate Enabled(s: State, step: Step) {
    match step
    case Arrive(now) => s.clock <= now
    case OperationSettles(c, _) => c < |s.collections| && s.collections[c].operation.Running?
    case TimerFires(c) => c < |s.collections| && s.collections[c].promise.Waiting?
    case PromiseHandler(c, now) =>
      s.clock <= now && c < |s.collections| && !s.collections[c].promise.Waiting? && s.collections[c].outcome.None?
    case Release(c) => c < |s.collections| && !s.collections[c].operation.Running? && !s.collections[c].released
    case Resume(i, now) =>
      && s.clock <= now && i < |s.scrapes| && s.scrapes[i].Awaiting?
      && s.scrapes[i].collection < |s.collections| && s.collections[s.scrapes[i].collection].outcome.Some?
      && !s.collections[s.scrapes[i].collection].promise.Waiting?
  }

  function Started(s: State): State {
    s.(active := Some(|s.collections|), collections := s.collections + [Collection(Running, Waiting, None, false)])
  }

  /** Serve the cache while it is fresh; otherwise join the active collection or start one. */
  function Arrived(cfg: Config, s: State, now: int): State {
    var s := s.(clock := now);
    if s.cache.Some? && now - s.cache.value.collectedAt < cfg.cacheTtl then
      s.(scrapes := s.scrapes + [FromCacheEntry(s.cache.value, true, false, now)])
    else
      var joined := if s.active.Some? then s else Started(s);
      joined.(scrapes := s.scrapes + [Awaiting(joined.active.value)])
  }

  function Settle(promise: Promise, reply: Option<Gauges>): Promise {
    if !promise.Waiting? then promise
    else match reply case Some(gauges) => Resolved(gauges) case None => Rejected
  }

  function OutcomeOf(promise: Promise): Outcome {
    match promise
    case Resolved(_) => SuccessOutcome
    case TimedOut => TimeoutOutcome
    case _ => ErrorOutcome
  }

  function Cleared(active: Option<nat>, c: nat): Option<nat> {
    if active == Some(c) then None else active
  }

  /** The two callbacks startCollection hangs on the promise. */
  function Handled(s: State, c: nat, now: int): State
    requires c < |s.collections|
  {
    var collection := s.collections[c];
    var outcome := OutcomeOf(collection.promise);
    var counted := s.(
      clock := now,
      collections := s.collections[c := collection.(outcome := Some(outcome))],
      counters := s.counters[outcome := Value(s.counters, outcome) + 1]);
    match collection.promise
    case Resolved(gauges) => counted.(cache := Some(Cache(gauges, now, c)), active := Cleared(s.active, c))
    case TimedOut => counted
    case _ => counted.(active := Cleared(s.active, c))
  }

  /** The rest of databaseSnapshot once the awaited promise has settled. */
  function Answer(cfg: Config, cache: Option<Cache>, promise: Promise, c: nat, now: int): Scrape {
    if promise.Resolved? then
      Answered(Rendered(Some(promise.gauges), true, false, 0), FromCollection(c))
    else if cache.Some? && now - cache.value.collectedAt <= cfg.staleTtl then
      FromCacheEntry(cache.value, false, true, now)
    else UNAVAILABLE
  }

  function Next(cfg: Config, s: State, step: Step): State
    requires Enabled(s, step)
  {
    match step
    case Arrive(now) => Arrived(cfg, s, now)
    case OperationSettles(c, reply) =>
      var operation := match reply case Some(gauges) => Replied(gauges) case None => Broke;
      s.(collections := s.collections[c :=
        s.collections[c].(operation := operation, promise := Settle(s.collections[c].promise, reply))])
    case TimerFires(c) => s.(collections := s.collections[c := s.collections[c].(promise := TimedOut)])
    case PromiseHandler(c, now) => Handled(s, c, now)
    case Release(c) =>
      s.(active := Cleared(s.active, c), collections := s.collections[c := s.collections[c].(released := true)])
    case Resume(i, now) =>
      var c := s.scrapes[i].collection;
      s.(clock := now, scrapes := s.scrapes[i := Answer(cfg, s.cache, s.collections[c].promise, c, now)])
  }

  class DatabaseMetrics {
    const cfg: Config
    ghost var clock: int
    var databaseCache: Option<Cache>
    var activeCollection: Option<nat>
    var collections: seq<Collection>
    var counters: map<Outcome, nat>
    var scrapes: seq<Scrape>

    ghost function Contents(): State
      reads this
    {
      State(clock, databaseCache, activeCollection, collections, counters, scrapes)
    }

    constructor (cfg: Config, now: int)
      ensures this.cfg == cfg && Contents() == State(now, None, None, [], map[], [])
    {
      this.cfg := cfg;
      clock, databaseCache, activeCollection := now, None, None;
      collections, counters, scrapes := [], map[], [];
    }

    method StartCollection() returns (c: nat)
      modifies `collections, `activeCollection
      ensures Contents() == Started(old(Contents())) && c == |old(collections)|
    {
      c := |collections|;
      collections := collections + [Collection(Running, Waiting, None, false)];
      activeCollection := Some(c);
    }

    /** databaseSnapshot up to its await. */
    method Snapshot(now: int) returns (scrape: nat)
      requires Enabled(Contents(), Arrive(now))
      modifies this
      ensures Contents() == Next(cfg, old(Contents()), Arrive(now)) && scrape == |old(scrapes)|
    {
      scrape := |scrapes|;
      clock := now;
      if databaseCache.Some? && now - databaseCache.value.collectedAt < cfg.cacheTtl {
        scrapes := scrapes + [FromCacheEntry(databaseCache.value, true, false, now)];
        return;
      }
      var c: nat;
      if activeCollection.Some? { c := activeCollection.value; } else { c := StartCollection(); }
      scrapes := scrapes + [Awaiting(c)];
    }

    method SettleOperation(c: nat, reply: Option<Gauges>)
      requires Enabled(Contents(), OperationSettles(c, reply))
      modifies `collections
      ensures Contents() == Next(cfg, old(Contents()), OperationSettles(c, reply))
    {
      var collection := collections[c];
      if reply.Some? {
        collection := collection.(operation := Replied(reply.value), promise := Settle(collection.promise, reply));
      } else {
        collection := collection.(operation := Broke, promise := Settle(collection.promise, reply));
      }
      collections := collections[c := collection];
    }

    method FireTimer(c: nat)
      requires Enabled(Contents(), TimerFires(c))
      modifies `collections
      ensures Contents() == Next(cfg, old(Contents()), TimerFires(c))
    {
      collections := collections[c := collections[c].(promise := TimedOut)];
    }

    method RecordCollectionOutcome(c: nat, outcome: Outcome)
      requires c < |collections|
      modifies `collections, `counters
      ensures old(collections[c].outcome).Some? ==> collections == old(collections) && counters == old(counters)
      ensures old(collections[c].outcome).None? ==>
        && collections == old(collections)[c := old(collections[c]).(outcome := Some(outcome))]
        && counters == old(counters)[outcome := Value(old(counters), outcome) + 1]
    {
      if collections[c].outcome.Some? { return; }
      collections := collections[c := collections[c].(outcome := Some(outcome))];
      counters := counters[outcome := Value(counters, outcome) + 1];
    }

    method HandlePromise(c: nat, now: int)
      requires Enabled(Contents(), PromiseHandler(c, now))
      modifies this
      ensures Contents() == Next(cfg, old(Contents()), PromiseHandler(c, now))
    {
      clock := now;
      var promise := collections[c].promise;
      if promise.Resolved? {
        if collections[c].outcome.None? {
          databaseCache := Some(Cache(promise.gauges, now, c));
          RecordCollectionOutcome(c, SuccessOutcome);
        }
        if activeCollection == Some(c) { activeCollection := None; }
      } else {
        RecordCollectionOutcome(c, if promise.TimedOut? then TimeoutOutcome else ErrorOutcome);
        if !promise.TimedOut? && activeCollection == Some(c) { activeCollection := None; }
      }
    }

    method ReleaseCollection(c: nat)
      requires Enabled(Contents(), Release(c))
      modifies `collections, `activeCollection
      ensures Contents() == Next(cfg, old(Contents()), Release(c))
    {
      if activeCollection == Some(c) { activeCollection := None; }
      collections := collections[c := collections[c].(released := true)];
    }

    method ResumeSnapshot(scrape: nat, now: int)
      requires Enabled(Contents(), Resume(scrape, now))
      modifies `scrapes, `clock
      ensures Contents() == Next(cfg, old(Contents()), Resume(scrape, now))
    {
      var c := scrapes[scrape].collection;
      clock := now;
      if collections[c].promise.Resolved? {
        scrapes := scrapes[scrape :=
          Answered(Rendered(Some(collections[c].promise.gauges), true, false, 0), FromCollection(c))];
      } else if databaseCache.Some? && now - databaseCache.value.collectedAt <= cfg.staleTtl {
        scrapes := scrapes[scrape := FromCacheEntry(databaseCache.value, false, true, now)];
      } else {
        scrapes := scrapes[scrape := UNAVAILABLE];
      }
    }
  }

  // ----- Runs -----

  ghost predicate Run(cfg: Config, s: State, steps: seq<Step>, s': State)
    decreases |steps|
  {
    if steps == [] then s' == s
    else Enabled(s, steps[0]) && Run(cfg, Next(cfg, s, steps[0]), steps[1..], s')
  }

  predicate Idle(s: State) {
    s.cache.None? && s.active.None? && s.collections == [] && s.counters == map[] && s.scrapes == []
  }

  /** A query still running is the active one, and a collection not yet released is active until
      its handlers have run. */
  ghost predicate SingleFlight(s: State) {
    && (s.active.Some? ==> s.active.value < |s.collections| && !s.collections[s.active.value].released)
    && (forall c | 0 <= c < |s.collections| && s.collections[c].operation.Running? ::
          s.active == Some(c) && !s.collections[c].released)
  }

  /** The promise agrees with the query and the outcome with the promise. */
  predicate Coherent(collection: Collection) {
    && (collection.promise.Waiting? ==> collection.operation.Running? && collection.outcome.None?)
    && (collection.promise.Resolved? ==> collection.operation == Replied(collection.promise.gauges))
    && (collection.promise.Rejected? ==> collection.operation.Broke?)
    && (collection.outcome.Some? ==> collection.outcome.value == OutcomeOf(collection.promise))
  }

  ghost predicate AllCoherent(collections: seq<Collection>) {
    forall c | 0 <= c < |collections| :: Coherent(collections[c])
  }

  function CountOutcome(collections: seq<Collection>, outcome: Outcome): nat {
    if collections == [] then 0
    else CountOutcome(collections[..|collections| - 1], outcome)
         + (if collections[|collections| - 1].outcome == Some(outcome) then 1 else 0)
  }

  ghost predicate Counted(collections: seq<Collection>, counters: map<Outcome, nat>) {
    forall outcome: Outcome :: Value(counters, outcome) == CountOutcome(collections, outcome)
  }

  /** The cache holds what a collection that succeeded in time brought back. */
  ghost predicate CacheEarned(cache: Option<Cache>, clock: int, collections: seq<Collection>) {
    cache.Some? ==>
      && cache.value.writer < |collections| && cache.value.collectedAt <= clock
      && collections[cache.value.writer].promise == Resolved(cache.value.gauges)
      && collections[cache.value.writer].outcome == Some(SuccessOutcome)
  }

  predicate ScrapeHonest(cfg: Config, collections: seq<Collection>, scrape: Scrape) {
    match scrape
    case Awaiting(c) => c < |collections|
    case Answered(snapshot, FromCache(age, writer)) =>
      && 0 <= age && snapshot.cacheAgeSeconds == age / 1000 && snapshot.gauges.Some?
      && writer < |collections| && collections[writer].promise == Resolved(snapshot.gauges.value)
      && collections[writer].outcome == Some(SuccessOutcome)
      && snapshot.stale == !snapshot.available
      && (snapshot.available ==> age < cfg.cacheTtl) && (snapshot.stale ==> age <= cfg.staleTtl)
    case Answered(snapshot, FromCollection(c)) =>
      c < |collections| && snapshot.available && !snapshot.stale && snapshot.gauges.Some?
        && snapshot.cacheAgeSeconds == 0
      && collections[c].promise == Resolved(snapshot.gauges.value)
    case Answered(snapshot, Nowhere) => snapshot == Rendered(None, false, false, 0)
  }

  ghost predicate ScrapesHonest(cfg: Config, s: State) {
    forall i | 0 <= i < |s.scrapes| :: ScrapeHonest(cfg, s.collections, s.scrapes[i])
  }

  ghost predicate Invariant(cfg: Config, s: State) {
    && SingleFlight(s) && AllCoherent(s.collections) && Counted(s.collections, s.counters)
    && CacheEarned(s.cache, s.clock, s.collections) && ScrapesHonest(cfg, s)
  }

  lemma StepKeepsCoherent(cfg: Config, s: State, step: Step)
    requires AllCoherent(s.collections) && Enabled(s, step)
    ensures AllCoherent(Next(cfg, s, step).collections)
  {
  }

  lemma StepKeepsSingleFlight(cfg: Config, s: State, step: Step)
    requires SingleFlight(s) && AllCoherent(s.collections) && Enabled(s, step)
    ensures SingleFlight(Next(cfg, s, step))
  {
    hide Answer;
    if step.PromiseHandler? { assert Coherent(s.collections[step.collection]); }
  }

  lemma {:induction false} CountAfterUpdate(collections: seq<Collection>, c: nat, updated: Collection, outcome: Outcome)
    requires c < |collections|
    ensures CountOutcome(collections[c := updated], outcome) == CountOutcome(collections, outcome)
      - (if collections[c].outcome == Some(outcome) then 1 else 0) + (if updated.outcome == Some(outcome) then 1 else 0)
  {
    var last := |collections| - 1;
    if c < last {
      CountAfterUpdate(collections[..last], c, updated, outcome);
      assert collections[c := updated][..last] == collections[..last][c := updated];
    } else {
      assert collections[c := updated][..last] == collections[..last];
    }
  }

  lemma ArriveKeepsCount(collections: seq<Collection>, counters: map<Outcome, nat>)
    requires Counted(collections, counters)
    ensures Counted(collections + [Collection(Running, Waiting, None, false)], counters)
  {
    var more := collections + [Collection(Running, Waiting, None, false)];
    assert more[..|collections|] == collections;
    hide Value;
  }

  lemma UpdateKeepsCount(collections: seq<Collection>, counters: map<Outcome, nat>, c: nat, updated: Collection)
    requires Counted(collections, counters) && c < |collections| && updated.outcome == collections[c].outcome
    ensures Counted(collections[c := updated], counters)
  {
    hide CountOutcome, Value;
    var more := collections[c := updated];
    forall outcome: Outcome ensures CountOutcome(more, outcome) == CountOutcome(collections, outcome) {
      CountAfterUpdate(collections, c, updated, outcome);
    }
  }

  lemma HandlingCounts(collections: seq<Collection>, counters: map<Outcome, nat>, c: nat, counted: Outcome)
    requires Counted(collections, counters) && c < |collections| && collections[c].outcome.None?
    ensures Counted(collections[c := collections[c].(outcome := Some(counted))],
      counters[counted := Value(counters, counted) + 1])
  {
    hide CountOutcome;
    var updated := collections[c].(outcome := Some(counted));
    var more, counters' := collections[c := updated], counters[counted := Value(counters, counted) + 1];
    forall outcome: Outcome ensures Value(counters', outcome) == CountOutcome(more, outcome) {
      assert Value(counters, outcome) == CountOutcome(collections, outcome);
      CountAfterUpdate(collections, c, updated, outcome);
    }
  }

  lemma StepKeepsCount(cfg: Config, s: State, step: Step)
    requires Counted(s.collections, s.counters) && Enabled(s, step)
    ensures Counted(Next(cfg, s, step).collections, Next(cfg, s, step).counters)
  {
    hide Answer, FromCacheEntry, Counted, Value;
    var s' := Next(cfg, s, step);
    match step
    case Arrive(_) => ArriveKeepsCount(s.collections, s.counters);
    case Resume(_, _) =>
    case PromiseHandler(c, _) => HandlingCounts(s.collections, s.counters, c, OutcomeOf(s.collections[c].promise));
    case OperationSettles(c, _) => UpdateKeepsCount(s.collections, s.counters, c, s'.collections[c]);
    case TimerFires(c) => UpdateKeepsCount(s.collections, s.counters, c, s'.collections[c]);
    case Release(c) => UpdateKeepsCount(s.collections, s.counters, c, s'.collections[c]);
  }

  lemma StepKeepsCache(cfg: Config, s: State, step: Step)
    requires CacheEarned(s.cache, s.clock, s.collections) && Enabled(s, step)
    ensures CacheEarned(Next(cfg, s, step).cache, Next(cfg, s, step).clock, Next(cfg, s, step).collections)
  {
    hide Answer, FromCacheEntry;
  }

  /** Once settled a promise never changes, and once counted an outcome never changes. */
  lemma StepFixesPromises(cfg: Config, s: State, step: Step, c: nat)
    requires Enabled(s, step) && c < |s.collections|
    ensures var s' := Next(cfg, s, step);
      && c < |s'.collections|
      && (!s.collections[c].promise.Waiting? ==> s'.collections[c].promise == s.collections[c].promise)
      && (s.collections[c].outcome.Some? ==> s'.collections[c].outcome == s.collections[c].outcome)
  {
    hide Answer, FromCacheEntry;
  }

  lemma HonestLater(cfg: Config, s: State, step: Step, scrape: Scrape)
    requires Enabled(s, step) && ScrapeHonest(cfg, s.collections, scrape)
    ensures ScrapeHonest(cfg, Next(cfg, s, step).collections, scrape)
  {
    hide Next, Enabled;
    match scrape
    case Awaiting(c) => StepFixesPromises(cfg, s, step, c);
    case Answered(_, FromCollection(c)) => StepFixesPromises(cfg, s, step, c);
    case Answered(_, FromCache(_, writer)) => StepFixesPromises(cfg, s, step, writer);
    case _ =>
  }

  lemma StepKeepsScrapes(cfg: Config, s: State, step: Step)
    requires Invariant(cfg, s) && Enabled(s, step)
    ensures ScrapesHonest(cfg, Next(cfg, s, step))
  {
    hide CountOutcome, Counted, AllCoherent, Settle;
    var s' := Next(cfg, s, step);
    forall i | 0 <= i < |s'.scrapes| ensures ScrapeHonest(cfg, s'.collections, s'.scrapes[i]) {
      if i < |s.scrapes| && s'.scrapes[i] == s.scrapes[i] {
        HonestLater(cfg, s, step, s.scrapes[i]);
      }
    }
  }

  lemma StepKeepsInvariant(cfg: Config, s: State, step: Step)
    requires Invariant(cfg, s) && Enabled(s, step)
    ensures Invariant(cfg, Next(cfg, s, step))
  {
    hide Next, Enabled, SingleFlight, AllCoherent, Counted, CacheEarned, ScrapesHonest;
    StepKeepsSingleFlight(cfg, s, step);
    StepKeepsCoherent(cfg, s, step);
    StepKeepsCount(cfg, s, step);
    StepKeepsCache(cfg, s, step);
    StepKeepsScrapes(cfg, s, step);
  }

  lemma {:induction false} RunKeepsInvariant(cfg: Config, s: State, steps: seq<Step>, s': State)
    requires Invariant(cfg, s) && Run(cfg, s, steps, s')
    ensures Invariant(cfg, s')
    decreases |steps|
  {
    hide Invariant, Next, Enabled;
    if steps != [] {
      StepKeepsInvariant(cfg, s, steps[0]);
      RunKeepsInvariant(cfg, Next(cfg, s, steps[0]), steps[1..], s');
    }
  }

  lemma IdleInvariant(cfg: Config, s: State)
    requires Idle(s)
    ensures Invariant(cfg, s)
  {
  }

  // ----- What every run shows -----

  /** At most one collection query is outstanding. */
  lemma OneQueryOutstanding(cfg: Config, s: State, steps: seq<Step>, s': State, c: nat, d: nat)
    requires Idle(s) && Run(cfg, s, steps, s')
    requires c < |s'.collections| && s'.collections[c].operation.Running?
    requires d < |s'.collections| && s'.collections[d].operation.Running?
    ensures c == d
  {
    hide Run, Idle, Counted, AllCoherent, CacheEarned, ScrapesHonest;
    IdleInvariant(cfg, s);
    RunKeepsInvariant(cfg, s, steps, s');
  }

  function HandledCount(collections: seq<Collection>): nat {
    if collections == [] then 0
    else
      HandledCount(collections[..|collections| - 1])
      + (if collections[|collections| - 1].outcome.Some? then 1 else 0)
  }

  lemma {:induction false} OutcomesPartition(collections: seq<Collection>)
    ensures CountOutcome(collections, SuccessOutcome) + CountOutcome(collections, TimeoutOutcome)
      + CountOutcome(collections, ErrorOutcome) == HandledCount(collections)
  {
    if collections != [] {
      OutcomesPartition(collections[..|collections| - 1]);
      match collections[|collections| - 1].outcome
      case Some(SuccessOutcome) =>
      case Some(TimeoutOutcome) =>
      case Some(ErrorOutcome) =>
      case None =>
    }
  }

  /** Each collection counts exactly one outcome, the one its promise came to: the three counters
      add up to the collections whose promise was handled, each counter to those of its kind. */
  lemma OneOutcomeEach(cfg: Config, s: State, steps: seq<Step>, s': State)
    requires Idle(s) && Run(cfg, s, steps, s')
    ensures Value(s'.counters, SuccessOutcome) + Value(s'.counters, TimeoutOutcome) + Value(s'.counters, ErrorOutcome)
      == HandledCount(s'.collections)
    ensures forall outcome: Outcome :: Value(s'.counters, outcome) == CountOutcome(s'.collections, outcome)
    ensures forall c | 0 <= c < |s'.collections| && s'.collections[c].outcome.Some? ::
      !s'.collections[c].promise.Waiting? && s'.collections[c].outcome.value == OutcomeOf(s'.collections[c].promise)
  {
    hide Run, Idle, SingleFlight, CacheEarned, ScrapesHonest;
    IdleInvariant(cfg, s);
    RunKeepsInvariant(cfg, s, steps, s');
    OutcomesPartition(s'.collections);
    forall c | 0 <= c < |s'.collections| && s'.collections[c].outcome.Some?
      ensures !s'.collections[c].promise.Waiting?
      ensures s'.collections[c].outcome.value == OutcomeOf(s'.collections[c].promise)
    {
      assert Coherent(s'.collections[c]);
    }
  }

  lemma {:induction false} RunFixesPromises(cfg: Config, s: State, steps: seq<Step>, s': State, c: nat)
    requires Run(cfg, s, steps, s') && c < |s.collections|
    ensures c < |s'.collections|
    ensures !s.collections[c].promise.Waiting? ==> s'.collections[c].promise == s.collections[c].promise
    ensures s.collections[c].outcome.Some? ==> s'.collections[c].outcome == s.collections[c].outcome
    decreases |steps|
  {
    hide Next, Enabled;
    if steps != [] {
      StepFixesPromises(cfg, s, steps[0], c);
      RunFixesPromises(cfg, Next(cfg, s, steps[0]), steps[1..], s', c);
    }
  }

  /** A collection that timed out never writes the cache, however late its reply arrives, and
      never turns into a success. */
  lemma TimedOutNeverWrites(cfg: Config, s: State, before: seq<Step>, mid: State, after: seq<Step>, s': State, c: nat)
    requires Idle(s) && Run(cfg, s, before, mid) && Run(cfg, mid, after, s')
    requires c < |mid.collections| && mid.collections[c].promise.TimedOut?
    ensures s'.cache.Some? ==> s'.cache.value.writer != c
    ensures c < |s'.collections|
      && (s'.collections[c].outcome.Some? ==> s'.collections[c].outcome.value == TimeoutOutcome)
  {
    hide Run, Idle, SingleFlight, Counted, ScrapesHonest;
    IdleInvariant(cfg, s);
    RunKeepsInvariant(cfg, s, before, mid);
    RunKeepsInvariant(cfg, mid, after, s');
    RunFixesPromises(cfg, mid, after, s', c);
    assert Coherent(s'.collections[c]);
  }

  /** Every value shown is the reply of a collection that succeeded in time, and a value from the
      cache is younger than the cache TTL, or, when marked stale, no older than the stale TTL. */
  lemma AnswersAreHonest(cfg: Config, s: State, steps: seq<Step>, s': State, i: nat)
    requires Idle(s) && Run(cfg, s, steps, s') && i < |s'.scrapes|
    ensures ScrapeHonest(cfg, s'.collections, s'.scrapes[i])
  {
    hide Run, Idle, SingleFlight, Counted, AllCoherent, CacheEarned;
    IdleInvariant(cfg, s);
    RunKeepsInvariant(cfg, s, steps, s');
  }

  /** Nothing wedges: with no query outstanding, an active collection has a pending handler that
      frees the slot for the next scrape. */
  lemma SlotComesFree(cfg: Config, s: State, steps: seq<Step>, s': State)
    requires Idle(s) && Run(cfg, s, steps, s')
    requires s'.active.Some? && (forall c | 0 <= c < |s'.collections| :: !s'.collections[c].operation.Running?)
    ensures Enabled(s', Release(s'.active.value)) && Next(cfg, s', Release(s'.active.value)).active.None?
  {
    hide Run, Idle, Counted, AllCoherent, CacheEarned, ScrapesHonest;
    IdleInvariant(cfg, s);
    RunKeepsInvariant(cfg, s, steps, s');
  }

  // ----- The stale bound -----

  ghost predicate ServesOld(cfg: Config, s: State) {
    exists i :: 0 <= i < |s.scrapes| && s.scrapes[i].Answered? && s.scrapes[i].origin.FromCache?
      && s.scrapes[i].origin.age > cfg.staleTtl
  }

  ghost predicate SomeRunServesOld(cfg: Config, s: State) {
    exists steps: seq<Step>, s': State :: Run(cfg, s, steps, s') && ServesOld(cfg, s')
  }

  function FirstAnswer(now: int): State {
    State(now, Some(Cache(7, now, 0)), None, [Collection(Replied(7), Resolved(7), Some(SuccessOutcome), false)],
      map[SuccessOutcome := 1], [Awaiting(0)])
  }

  lemma ReachFirstAnswer(cfg: Config, s: State)
    requires Idle(s)
    ensures Run(cfg, s, [Arrive(s.clock), OperationSettles(0, Some(7)), PromiseHandler(0, s.clock)],
      FirstAnswer(s.clock))
  {
    var now := s.clock;
    var steps := [Arrive(now), OperationSettles(0, Some(7)), PromiseHandler(0, now)];
    var s1 := Next(cfg, s, steps[0]);
    assert s1 == State(now, None, Some(0), [Collection(Running, Waiting, None, false)], map[], [Awaiting(0)]);
    var s2 := Next(cfg, s1, steps[1]);
    var s3 := Next(cfg, s2, steps[2]);
    assert s3 == FirstAnswer(now);
    assert Run(cfg, s3, [], s3);
    assert steps[1..] == [steps[1], steps[2]] && steps[1..][1..] == [steps[2]] && steps[1..][1..][1..] == [];
    assert Run(cfg, s2, [steps[2]], s3);
    assert Run(cfg, s1, [steps[1], steps[2]], s3);
  }

  lemma {:induction false} RunConcat(cfg: Config, s: State, first: seq<Step>, mid: State, second: seq<Step>, s': State)
    requires Run(cfg, s, first, mid) && Run(cfg, mid, second, s')
    ensures Run(cfg, s, first + second, s')
    decreases |first|
  {
    hide Next, Enabled;
    if first == [] {
      assert first + second == second;
    } else {
      RunConcat(cfg, Next(cfg, s, first[0]), first[1..], mid, second, s');
      assert (first + second)[1..] == first[1..] + second;
    }
  }

  lemma OldIsServed(cfg: Config, s: State)
    requires Idle(s) && cfg.cacheTtl > cfg.staleTtl + 1
    ensures SomeRunServesOld(cfg, s)
  {
    var now := s.clock;
    var first := [Arrive(now), OperationSettles(0, Some(7)), PromiseHandler(0, now)];
    var late := [Arrive(now + cfg.staleTtl + 1)];
    ReachFirstAnswer(cfg, s);
    var s' := Next(cfg, FirstAnswer(now), late[0]);
    assert late[1..] == [];
    assert Run(cfg, FirstAnswer(now), late, s');
    RunConcat(cfg, s, first, FirstAnswer(now), late, s');
    assert s'.scrapes[1].origin == FromCache(cfg.staleTtl + 1, 0);
  }

  /** No run serves a cached snapshot older than the stale TTL, exactly when the configured cache
      TTL exceeds the stale TTL by at most one millisecond. */
  lemma StaleBoundExact(cfg: Config, s: State)
    requires Idle(s)
    ensures SomeRunServesOld(cfg, s) <==> cfg.cacheTtl > cfg.staleTtl + 1
  {
    hide Run;
    if cfg.cacheTtl > cfg.staleTtl + 1 {
      OldIsServed(cfg, s);
    } else if SomeRunServesOld(cfg, s) {
      var steps: seq<Step>, s': State :| Run(cfg, s, steps, s') && ServesOld(cfg, s');
      var i :| 0 <= i < |s'.scrapes| && s'.scrapes[i].Answered? && s'.scrapes[i].origin.FromCache?
        && s'.scrapes[i].origin.age > cfg.staleTtl;
      AnswersAreHonest(cfg, s, steps, s', i);
      assert false;
    }
  }
}
