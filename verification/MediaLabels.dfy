/** Which label a completed media request counts (media-observability.service.ts). */
module MediaLabels {
  import opened Outcomes
  import opened MediaRequests

  /** Exactly the counter of this key went up, by one. */
  ghost predicate CountsOne(before: map<Key, nat>, after: map<Key, nat>, key: Key) {
    forall other: Key :: Value(after, other) == Value(before, other) + (if other == key then 1 else 0)
  }

  lemma IncrementCountsOne(counters: map<Key, nat>, key: Key)
    ensures CountsOne(counters, Increment(counters, key), key)
  {
  }

  /** The first completion of an ingestion counts the label it names, once, and takes one request
      out of flight. */
  lemma CompleteCountsLabel(m: Metrics, handle: nat, outcome: IngestionOutcome, millis: Millis)
    requires Conserved(m) && Shaped(m) && handle < |m.handles| && m.handles[handle] == Handle(IngestionKind, false)
    ensures var m' := CompleteIngestion(m, handle, Some(outcome), millis);
      && CountsOne(m.counters, m'.counters, Ingestion(outcome)) && m'.ingestionInflight == m.ingestionInflight - 1
      && m'.signedInflight == m.signedInflight && m'.handles == m.handles[handle := Handle(IngestionKind, true)]
  {
    CompleteIngestionConserves(m, handle, Some(outcome), millis);
    IncrementCountsOne(m.counters, Ingestion(outcome));
    hide Conserved, Observe, CountsOne, Increment, ObservedFor, HistogramOf, Measured;
  }

  /** A measured duration goes to its label's histogram, and to no other. */
  lemma CompleteObserves(m: Metrics, handle: nat, outcome: IngestionOutcome, millis: Millis, other: IngestionOutcome)
    requires Shaped(m) && handle < |m.handles| && m.handles[handle] == Handle(IngestionKind, false)
    ensures ObservedFor(CompleteIngestion(m, handle, Some(outcome), millis).observed, other)
      == ObservedFor(m.observed, other)
         + (if other == outcome && outcome != Disabled && millis.Finite? && millis.amount >= 0.0
            then [millis.amount] else [])
  {
    hide Observe, Increment;
  }

  lemma CompleteCountsSigned(m: Metrics, handle: nat, outcome: SignedOutcome)
    requires Conserved(m) && handle < |m.handles| && m.handles[handle] == Handle(SignedKind, false)
    ensures var m' := CompleteSigned(m, handle, Some(outcome));
      && CountsOne(m.counters, m'.counters, SignedTerminal(outcome)) && m'.signedInflight == m.signedInflight - 1
      && m'.ingestionInflight == m.ingestionInflight && m'.handles == m.handles[handle := Handle(SignedKind, true)]
  {
    CompleteSignedConserves(m, handle, Some(outcome));
    IncrementCountsOne(m.counters, SignedTerminal(outcome));
    hide Conserved, CountsOne, Increment;
  }

  lemma BeginCounts(m: Metrics)
    ensures var m' := BeginIngestion(m);
      CountsOne(m.counters, m'.counters, IngestionRequest) && m'.ingestionInflight == m.ingestionInflight + 1
      && m'.signedInflight == m.signedInflight && m'.handles == m.handles + [Handle(IngestionKind, false)]
    ensures var m' := BeginSigned(m);
      CountsOne(m.counters, m'.counters, SignedStarted) && m'.signedInflight == m.signedInflight + 1
      && m'.ingestionInflight == m.ingestionInflight && m'.handles == m.handles + [Handle(SignedKind, false)]
  {
  }

  // ----- Over every run -----

  /** What the step adds to the counter of the key. */
  function Added(m: Metrics, step: Step, key: Key): nat
    requires Enabled(m, step)
  {
    match step
    case BeginIngestionStep => if key == IngestionRequest then 1 else 0
    case BeginSignedStep => if key == SignedStarted then 1 else 0
    case CompleteIngestionStep(handle, outcome, _) =>
      if !m.handles[handle].completed && outcome.Some? && key == Ingestion(outcome.value) then 1 else 0
    case CompleteSignedStep(handle, outcome) =>
      if !m.handles[handle].completed && outcome.Some? && key == SignedTerminal(outcome.value) then 1 else 0
  }

  /** How often the run begins a request of the key's kind, or first completes one with its label. */
  ghost function Happened(m: Metrics, steps: seq<Step>, m': Metrics, key: Key): nat
    requires Run(m, steps, m')
    decreases |steps|
  {
    if steps == [] then 0
    else Added(m, steps[0], key) + Happened(Next(m, steps[0]), steps[1..], m', key)
  }

  lemma StepCounts(m: Metrics, step: Step, key: Key)
    requires Shaped(m) && Enabled(m, step)
    ensures Value(Next(m, step).counters, key) == Value(m.counters, key) + Added(m, step, key)
  {
    hide Observe, Increment, Value;
    match step
    case BeginIngestionStep => IncrementExact(m.counters, IngestionRequest, key);
    case BeginSignedStep => IncrementExact(m.counters, SignedStarted, key);
    case CompleteIngestionStep(_, outcome, _) =>
      if outcome.Some? { IncrementExact(m.counters, Ingestion(outcome.value), key); }
    case CompleteSignedStep(_, outcome) =>
      if outcome.Some? { IncrementExact(m.counters, SignedTerminal(outcome.value), key); }
  }

  /** In every interleaving each counter tells how often its event happened. */
  lemma {:induction false} CountersExact(m: Metrics, steps: seq<Step>, m': Metrics, key: Key)
    requires Run(m, steps, m')
    ensures Value(m'.counters, key) == Value(m.counters, key) + Happened(m, steps, m', key)
    decreases |steps|
  {
    if steps != [] {
      hide Next, Enabled, Value;
      StepCounts(m, steps[0], key);
      CountersExact(Next(m, steps[0]), steps[1..], m', key);
    }
  }
}
