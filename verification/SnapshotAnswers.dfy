/** What a scrape of the database snapshot is answered, and when nothing at all
    (media-observability.service.ts). */
module SnapshotAnswers {
  import opened Outcomes
  import opened DatabaseSnapshot

  /** A scrape is answered at once exactly while the cache is younger than its TTL, with the cached
      gauges; otherwise it waits for the active collection, or for a new one if there is none. */
  lemma ArriveExact(cfg: Config, s: State, step: Step)
    requires Enabled(s, step) && step.Arrive? && SingleFlight(s)
    ensures var next := Next(cfg, s, step);
      && |next.scrapes| == |s.scrapes| + 1 && next.scrapes[..|s.scrapes|] == s.scrapes
      && var mine := next.scrapes[|s.scrapes|];
         if s.cache.Some? && step.now < s.cache.value.collectedAt + cfg.cacheTtl
         then mine.Answered? && mine.snapshot.gauges == Some(s.cache.value.gauges) && mine.snapshot.available
           && !mine.snapshot.stale && next.collections == s.collections && next.active == s.active
         else if s.active.Some? then mine == Awaiting(s.active.value) && next.collections == s.collections
         else (
           && mine == Awaiting(|s.collections|) && next.active == Some(|s.collections|)
           && next.collections == s.collections + [Collection(Running, Waiting, None, false)])
  {
  }

  /** An awaited collection that succeeded in time is shown as it came; after any other the cache is
      shown, marked stale, exactly while it is no older than the stale TTL. */
  lemma ResumeExact(cfg: Config, s: State, step: Step)
    requires Enabled(s, step) && step.Resume?
    ensures var next, c := Next(cfg, s, step), s.scrapes[step.scrape].collection;
      && |next.scrapes| == |s.scrapes| && next.scrapes[step.scrape].Answered?
      && next.collections == s.collections && next.cache == s.cache && next.active == s.active
      && var shown := next.scrapes[step.scrape].snapshot;
         if s.collections[c].promise.Resolved?
         then shown.gauges == Some(s.collections[c].promise.gauges) && shown.available && !shown.stale
         else if s.cache.Some? && step.now <= s.cache.value.collectedAt + cfg.staleTtl
         then shown.gauges == Some(s.cache.value.gauges) && !shown.available && shown.stale
         else shown.gauges == None && !shown.available && !shown.stale
  {
  }

  /** Of the query's end and the timer, whichever comes first decides what the promise comes to. */
  lemma SettleExact(cfg: Config, s: State, step: Step, c: nat)
    requires Enabled(s, step) && (step.OperationSettles? || step.TimerFires?) && c < |s.collections|
    ensures var next := Next(cfg, s, step);
      && |next.collections| == |s.collections| && next.cache == s.cache && next.active == s.active
      && var before, after := s.collections[c], next.collections[c];
         if c != step.collection then after == before
         else if step.TimerFires? then after == before.(promise := TimedOut)
         else
           && after.operation == (if step.reply.Some? then Replied(step.reply.value) else Broke)
           && after.outcome == before.outcome && after.released == before.released
           && after.promise == (
                if !before.promise.Waiting? then before.promise
                else if step.reply.Some? then Resolved(step.reply.value) else Rejected)
  {
  }

  /** A collection whose promise resolved is cached with the time it was handled; a failed one frees
      the slot, a timed-out one does not, and neither touches the cache. */
  lemma HandledExact(cfg: Config, s: State, step: Step)
    requires Enabled(s, step) && step.PromiseHandler?
    ensures var next, c := Next(cfg, s, step), step.collection;
      var promise, outcome := s.collections[c].promise, next.collections[c].outcome;
      if promise.Resolved? then
        next.cache == Some(Cache(promise.gauges, step.now, c)) && next.active != Some(c)
        && outcome == Some(SuccessOutcome)
      else
        && next.cache == s.cache
        && (if promise.TimedOut? then next.active == s.active && outcome == Some(TimeoutOutcome)
            else next.active != Some(c) && outcome == Some(ErrorOutcome))
  {
  }

  /** The cache holds the collection handled last of those that succeeded. */
  ghost predicate NoneSince(cfg: Config, s: State, steps: seq<Step>)
    decreases |steps|
  {
    steps == [] || (
      && Enabled(s, steps[0])
      && !(steps[0].PromiseHandler? && s.collections[steps[0].collection].promise.Resolved?)
      && NoneSince(cfg, Next(cfg, s, steps[0]), steps[1..]))
  }

  lemma {:induction false} CacheStays(cfg: Config, s: State, steps: seq<Step>, s': State)
    requires Run(cfg, s, steps, s') && NoneSince(cfg, s, steps)
    ensures s'.cache == s.cache
    decreases |steps|
  {
    if steps != [] {
      StepKeepsCacheUnlessHandled(cfg, s, steps[0]);
      hide Next, Enabled;
      CacheStays(cfg, Next(cfg, s, steps[0]), steps[1..], s');
    }
  }

  lemma StepKeepsCacheUnlessHandled(cfg: Config, s: State, step: Step)
    requires Enabled(s, step) && !(step.PromiseHandler? && s.collections[step.collection].promise.Resolved?)
    ensures Next(cfg, s, step).cache == s.cache
  {
    hide Answer, FromCacheEntry;
  }

  /** Once a collection has succeeded, every scrape that resumes within the stale TTL of it shows its
      gauges or those of a later success: a fallback is never withheld. */
  lemma FallbackIsShown(cfg: Config, s: State, handled: Step, steps: seq<Step>, s': State, resume: Step)
    requires Enabled(s, handled) && handled.PromiseHandler? && s.collections[handled.collection].promise.Resolved?
    requires Run(cfg, Next(cfg, s, handled), steps, s') && NoneSince(cfg, Next(cfg, s, handled), steps)
    requires Enabled(s', resume) && resume.Resume? && resume.now <= handled.now + cfg.staleTtl
    ensures var i := resume.scrape;
      var shown, promise := Next(cfg, s', resume).scrapes[i], s'.collections[s'.scrapes[i].collection].promise;
      && shown.Answered?
      && shown.snapshot.gauges == Some(
           if promise.Resolved? then promise.gauges else s.collections[handled.collection].promise.gauges)
  {
    HandledExact(cfg, s, handled);
    CacheStays(cfg, Next(cfg, s, handled), steps, s');
    ResumeExact(cfg, s', resume);
    hide Next, Run, NoneSince;
  }
}
