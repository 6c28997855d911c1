/** In-flight, outcome and duration metrics of media requests (media-observability.service.ts). */
module MediaRequests {
  import opened Outcomes

  datatype IngestionOutcome = Succeeded | Rejected | Failed | CleanupRequired | Disabled

  datatype SignedOutcome = Served | InvalidGrant | Unavailable | ProviderMismatch | IntegrityError

  datatype Key =
    | IngestionRequest | Ingestion(ingestion: IngestionOutcome)
    | SignedStarted | SignedTerminal(signed: SignedOutcome)

  datatype Kind = IngestionKind | SignedKind

  /** The closure a begin call returns: its kind and its `completed` flag. */
  datatype Handle = Handle(kind: Kind, completed: bool)

  /** The optional milliseconds argument. */
  datatype Millis = Absent | NotFinite | Finite(amount: real)

  datatype Histogram = Histogram(count: nat, milliseconds: real, buckets: seq<nat>)

  datatype MetricError = UnsupportedLabel

  const BOUNDS: seq<real> := [0.1, 0.25, 0.5, 1.0, 2.5, 5.0, 10.0, 30.0, 60.0]

  const EMPTY_HISTOGRAM := Histogram(0, 0.0, [0, 0, 0, 0, 0, 0, 0, 0, 0])

  /** The service's fields, the handles given out, and what a run accumulates: the durations
      observed and the completions that named an unsupported label. */
  datatype Metrics = Metrics(
    counters: map<Key, nat>, ingestionInflight: int, signedInflight: int,
    histograms: map<IngestionOutcome, Histogram>, handles: seq<Handle>,
    observed: map<IngestionOutcome, seq<real>>, strayIngestion: nat, straySigned: nat)

  predicate Untouched(m: Metrics) {
    && m.counters == map[] && m.ingestionInflight == 0 && m.signedInflight == 0 && m.histograms == map[]
    && m.handles == [] && m.observed == map[] && m.strayIngestion == 0 && m.straySigned == 0
  }

  function Value(counters: map<Key, nat>, key: Key): nat {
    if key in counters then counters[key] else 0
  }

  function Increment(counters: map<Key, nat>, key: Key): map<Key, nat> {
    counters[key := Value(counters, key) + 1]
  }

  function HistogramOf(histograms: map<IngestionOutcome, Histogram>, outcome: IngestionOutcome): Histogram {
    if outcome in histograms then histograms[outcome] else EMPTY_HISTOGRAM
  }

  function ObservedFor(observed: map<IngestionOutcome, seq<real>>, outcome: IngestionOutcome): seq<real> {
    if outcome in observed then observed[outcome] else []
  }

  /** Every bucket whose bound the duration does not pass counts it. */
  function Observe(h: Histogram, milliseconds: real): Histogram
    requires |h.buckets| == |BOUNDS|
  {
    Histogram(h.count + 1, h.milliseconds + milliseconds,
      seq(|BOUNDS|, i requires 0 <= i < |BOUNDS| =>
        h.buckets[i] + (if milliseconds / 1000.0 <= BOUNDS[i] then 1 else 0)))
  }

  function LowerToZero(x: int): int { if x < 0 then 0 else x }

  function BeginIngestion(m: Metrics): Metrics {
    m.(counters := Increment(m.counters, IngestionRequest),
       ingestionInflight := m.ingestionInflight + 1,
       handles := m.handles + [Handle(IngestionKind, false)])
  }

  function BeginSigned(m: Metrics): Metrics {
    m.(counters := Increment(m.counters, SignedStarted),
       signedInflight := m.signedInflight + 1,
       handles := m.handles + [Handle(SignedKind, false)])
  }

  predicate Measured(outcome: IngestionOutcome, millis: Millis) {
    !outcome.Disabled? && millis.Finite? && millis.amount >= 0.0
  }

  predicate Shaped(m: Metrics) {
    forall o | o in m.histograms :: |m.histograms[o].buckets| == |BOUNDS|
  }

  /** complete(outcome, milliseconds); None stands for a label outside the allowed ones, which
      throws after the handle is marked completed. */
  function CompleteIngestion(m: Metrics, handle: nat, outcome: Option<IngestionOutcome>, millis: Millis): Metrics
    requires handle < |m.handles| && Shaped(m)
  {
    if m.handles[handle].completed then m else
    var marked := m.(handles := m.handles[handle := m.handles[handle].(completed := true)]);
    match outcome
    case None => marked.(strayIngestion := m.strayIngestion + 1)
    case Some(o) =>
      var settled := marked.(
        ingestionInflight := LowerToZero(m.ingestionInflight - 1),
        counters := Increment(m.counters, Ingestion(o)));
      if !Measured(o, millis) then settled else
      settled.(
        histograms := m.histograms[o := Observe(HistogramOf(m.histograms, o), millis.amount)],
        observed := m.observed[o := ObservedFor(m.observed, o) + [millis.amount]])
  }

  function CompleteSigned(m: Metrics, handle: nat, outcome: Option<SignedOutcome>): Metrics
    requires handle < |m.handles|
  {
    if m.handles[handle].completed then m else
    var marked := m.(handles := m.handles[handle := m.handles[handle].(completed := true)]);
    match outcome
    case None => marked.(straySigned := m.straySigned + 1)
    case Some(o) =>
      marked.(signedInflight := LowerToZero(m.signedInflight - 1), counters := Increment(m.counters, SignedTerminal(o)))
  }

  class MediaObservability {
    var counters: map<Key, nat>
    var ingestionInflight: int
    var signedContentInflight: int
    var processingHistograms: map<IngestionOutcome, Histogram>
    var handles: seq<Handle>
    ghost var observed: map<IngestionOutcome, seq<real>>
    ghost var strayIngestion: nat
    ghost var straySigned: nat

    ghost function Contents(): Metrics
      reads this
    {
      Metrics(counters, ingestionInflight, signedContentInflight, processingHistograms, handles,
              observed, strayIngestion, straySigned)
    }

    constructor ()
      ensures Untouched(Contents())
    {
      counters, ingestionInflight, signedContentInflight := map[], 0, 0;
      processingHistograms, handles := map[], [];
      observed, strayIngestion, straySigned := map[], 0, 0;
    }

    method BeginIngestionRequest() returns (handle: nat)
      modifies this
      ensures Contents() == BeginIngestion(old(Contents())) && handle == |old(handles)|
    {
      counters := Increment(counters, IngestionRequest);
      ingestionInflight := ingestionInflight + 1;
      handle := |handles|;
      handles := handles + [Handle(IngestionKind, false)];
    }

    method BeginSignedContentRequest() returns (handle: nat)
      modifies this
      ensures Contents() == BeginSigned(old(Contents())) && handle == |old(handles)|
    {
      counters := Increment(counters, SignedStarted);
      signedContentInflight := signedContentInflight + 1;
      handle := |handles|;
      handles := handles + [Handle(SignedKind, false)];
    }

    method CompleteIngestionRequest(handle: nat, outcome: Option<IngestionOutcome>, millis: Millis)
      returns (r: Result<(), MetricError>)
      requires handle < |handles| && Shaped(Contents())
      modifies this
      ensures Contents() == CompleteIngestion(old(Contents()), handle, outcome, millis)
      ensures r.Failure? <==> !old(handles[handle].completed) && outcome.None?
    {
      if handles[handle].completed { return Success(()); }
      handles := handles[handle := handles[handle].(completed := true)];
      if outcome.None? {
        strayIngestion := strayIngestion + 1;
        return Failure(UnsupportedLabel);
      }
      ingestionInflight := LowerToZero(ingestionInflight - 1);
      counters := Increment(counters, Ingestion(outcome.value));
      if millis != Absent && outcome.value != Disabled {
        ObserveProcessing(outcome.value, millis);
      }
      r := Success(());
    }

    method CompleteSignedContentRequest(handle: nat,
        outcome: Option<SignedOutcome>) returns (r: Result<(), MetricError>)
      requires handle < |handles|
      modifies this
      ensures Contents() == CompleteSigned(old(Contents()), handle, outcome)
      ensures r.Failure? <==> !old(handles[handle].completed) && outcome.None?
    {
      if handles[handle].completed { return Success(()); }
      handles := handles[handle := handles[handle].(completed := true)];
      if outcome.None? {
        straySigned := straySigned + 1;
        return Failure(UnsupportedLabel);
      }
      signedContentInflight := LowerToZero(signedContentInflight - 1);
      counters := Increment(counters, SignedTerminal(outcome.value));
      r := Success(());
    }

    method ObserveProcessing(outcome: IngestionOutcome, millis: Millis)
      requires Shaped(Contents())
      modifies `processingHistograms, `observed
      ensures millis.Finite? && millis.amount >= 0.0 ==>
        && processingHistograms == old(processingHistograms)[outcome :=
             Observe(HistogramOf(old(processingHistograms), outcome), millis.amount)]
        && observed == old(observed)[outcome := ObservedFor(old(observed), outcome) + [millis.amount]]
      ensures !(millis.Finite? && millis.amount >= 0.0) ==>
        processingHistograms == old(processingHistograms) && observed == old(observed)
    {
      if !millis.Finite? || millis.amount < 0.0 { return; }
      var histogram := HistogramOf(processingHistograms, outcome);
      var buckets := histogram.buckets;
      var index := 0;
      while index < |buckets|
        invariant 0 <= index <= |buckets| == |BOUNDS|
        invariant forall i | 0 <= i < |buckets| ::
          buckets[i] == histogram.buckets[i] + (if i < index && millis.amount / 1000.0 <= BOUNDS[i] then 1 else 0)
      {
        if millis.amount / 1000.0 <= BOUNDS[index] { buckets := buckets[index := buckets[index] + 1]; }
        index := index + 1;
      }
      var next := Histogram(histogram.count + 1, histogram.milliseconds + millis.amount, buckets);
      assert next.buckets == Observe(histogram, millis.amount).buckets;
      processingHistograms := processingHistograms[outcome := next];
      observed := observed[outcome := ObservedFor(observed, outcome) + [millis.amount]];
    }
  }

  // ----- Conservation -----

  function OpenHandles(handles: seq<Handle>, kind: Kind): nat {
    if handles == [] then 0
    else OpenHandles(handles[..|handles| - 1], kind)
         + (if handles[|handles| - 1] == Handle(kind, false) then 1 else 0)
  }

  lemma {:induction false} CompletingHandle(handles: seq<Handle>, handle: nat, kind: Kind)
    requires handle < |handles| && !handles[handle].completed
    ensures OpenHandles(handles[handle := handles[handle].(completed := true)], kind)
         == OpenHandles(handles, kind) - (if handles[handle].kind == kind then 1 else 0)
  {
    var last := |handles| - 1;
    var updated := handles[handle := handles[handle].(completed := true)];
    if handle < last {
      CompletingHandle(handles[..last], handle, kind);
      assert updated[..last] == handles[..last][handle := handles[handle].(completed := true)];
    } else {
      assert updated[..last] == handles[..last];
    }
  }

  lemma OpeningHandle(handles: seq<Handle>, added: Kind, kind: Kind)
    ensures OpenHandles(handles + [Handle(added, false)], kind)
         == OpenHandles(handles, kind) + (if added == kind then 1 else 0)
  {
    assert (handles + [Handle(added, false)])[..|handles|] == handles;
  }

  function TerminalIngestions(c: map<Key, nat>): nat {
    Value(c, Ingestion(Succeeded)) + Value(c, Ingestion(Rejected)) + Value(c, Ingestion(Failed))
    + Value(c, Ingestion(CleanupRequired)) + Value(c, Ingestion(Disabled))
  }

  function TerminalSigned(c: map<Key, nat>): nat {
    Value(c, SignedTerminal(Served)) + Value(c, SignedTerminal(InvalidGrant)) + Value(c, SignedTerminal(Unavailable))
    + Value(c, SignedTerminal(ProviderMismatch)) + Value(c, SignedTerminal(IntegrityError))
  }

  /** started = in flight + terminal, and in flight = handles still open plus stray completions. */
  ghost predicate Conserved(m: Metrics) {
    && m.ingestionInflight == OpenHandles(m.handles, IngestionKind) + m.strayIngestion
    && Value(m.counters, IngestionRequest) == m.ingestionInflight + TerminalIngestions(m.counters)
    && m.signedInflight == OpenHandles(m.handles, SignedKind) + m.straySigned
    && Value(m.counters, SignedStarted) == m.signedInflight + TerminalSigned(m.counters)
  }

  lemma IncrementExact(c: map<Key, nat>, key: Key, other: Key)
    ensures Value(Increment(c, key), other) == Value(c, other) + (if other == key then 1 else 0)
  {
  }

  lemma TerminalIncrement(c: map<Key, nat>, key: Key)
    ensures TerminalIngestions(Increment(c, key)) == TerminalIngestions(c) + (if key.Ingestion? then 1 else 0)
    ensures TerminalSigned(Increment(c, key)) == TerminalSigned(c) + (if key.SignedTerminal? then 1 else 0)
  {
    hide Increment, Value;
    IncrementExact(c, key, Ingestion(Succeeded));
    IncrementExact(c, key, Ingestion(Rejected));
    IncrementExact(c, key, Ingestion(Failed));
    IncrementExact(c, key, Ingestion(CleanupRequired));
    IncrementExact(c, key, Ingestion(Disabled));
    IncrementExact(c, key, SignedTerminal(Served));
    IncrementExact(c, key, SignedTerminal(InvalidGrant));
    IncrementExact(c, key, SignedTerminal(Unavailable));
    IncrementExact(c, key, SignedTerminal(ProviderMismatch));
    IncrementExact(c, key, SignedTerminal(IntegrityError));
    match key
    case Ingestion(Succeeded) =>
    case Ingestion(Rejected) =>
    case Ingestion(Failed) =>
    case Ingestion(CleanupRequired) =>
    case Ingestion(Disabled) =>
    case SignedTerminal(Served) =>
    case SignedTerminal(InvalidGrant) =>
    case SignedTerminal(Unavailable) =>
    case SignedTerminal(ProviderMismatch) =>
    case SignedTerminal(IntegrityError) =>
    case _ =>
  }

  lemma BeginConserves(m: Metrics)
    requires Conserved(m)
    ensures Conserved(BeginIngestion(m)) && Conserved(BeginSigned(m))
  {
    hide TerminalIngestions, TerminalSigned, Increment, Value, OpenHandles;
    TerminalIncrement(m.counters, IngestionRequest);
    TerminalIncrement(m.counters, SignedStarted);
    IncrementExact(m.counters, IngestionRequest, IngestionRequest);
    IncrementExact(m.counters, IngestionRequest, SignedStarted);
    IncrementExact(m.counters, SignedStarted, IngestionRequest);
    IncrementExact(m.counters, SignedStarted, SignedStarted);
    OpeningHandle(m.handles, IngestionKind, IngestionKind);
    OpeningHandle(m.handles, IngestionKind, SignedKind);
    OpeningHandle(m.handles, SignedKind, IngestionKind);
    OpeningHandle(m.handles, SignedKind, SignedKind);
  }

  /** Completing keeps the conservation law, and the clamp at zero never changes a value. */
  lemma CompleteIngestionConserves(m: Metrics, handle: nat, outcome: Option<IngestionOutcome>, millis: Millis)
    requires Conserved(m) && Shaped(m) && handle < |m.handles| && m.handles[handle].kind.IngestionKind?
    ensures Conserved(CompleteIngestion(m, handle, outcome, millis))
    ensures !m.handles[handle].completed ==> m.ingestionInflight >= 1
  {
    hide TerminalIngestions, TerminalSigned, Increment, Value, OpenHandles, Observe, Measured;
    if !m.handles[handle].completed {
      CompletingHandle(m.handles, handle, IngestionKind);
      CompletingHandle(m.handles, handle, SignedKind);
      if outcome.Some? {
        var key := Ingestion(outcome.value);
        TerminalIncrement(m.counters, key);
        IncrementExact(m.counters, key, IngestionRequest);
        IncrementExact(m.counters, key, SignedStarted);
      }
    }
  }

  lemma CompleteSignedConserves(m: Metrics, handle: nat, outcome: Option<SignedOutcome>)
    requires Conserved(m) && handle < |m.handles| && m.handles[handle].kind.SignedKind?
    ensures Conserved(CompleteSigned(m, handle, outcome))
    ensures !m.handles[handle].completed ==> m.signedInflight >= 1
  {
    hide TerminalIngestions, TerminalSigned, Increment, Value, OpenHandles;
    if !m.handles[handle].completed {
      CompletingHandle(m.handles, handle, IngestionKind);
      CompletingHandle(m.handles, handle, SignedKind);
      if outcome.Some? {
        var key := SignedTerminal(outcome.value);
        TerminalIncrement(m.counters, key);
        IncrementExact(m.counters, key, IngestionRequest);
        IncrementExact(m.counters, key, SignedStarted);
      }
    }
  }

  // ----- Histograms -----

  /** How many observed durations are at most the bound. */
  function AtMost(observed: seq<real>, bound: real): nat {
    if observed == [] then 0
    else AtMost(observed[..|observed| - 1], bound) + (if observed[|observed| - 1] / 1000.0 <= bound then 1 else 0)
  }

  function Sum(observed: seq<real>): real {
    if observed == [] then 0.0 else Sum(observed[..|observed| - 1]) + observed[|observed| - 1]
  }

  ghost predicate HistogramExact(h: Histogram, observed: seq<real>) {
    && |h.buckets| == |BOUNDS| && h.count == |observed| && h.milliseconds == Sum(observed)
    && forall i | 0 <= i < |BOUNDS| :: h.buckets[i] == AtMost(observed, BOUNDS[i])
  }

  /** Each histogram tells exactly the durations completed with its outcome. */
  ghost predicate HistogramsExact(m: Metrics) {
    && m.histograms.Keys == m.observed.Keys
    && forall o | o in m.histograms :: HistogramExact(m.histograms[o], m.observed[o])
  }

  lemma ObserveExact(h: Histogram, observed: seq<real>, milliseconds: real)
    requires HistogramExact(h, observed)
    ensures HistogramExact(Observe(h, milliseconds), observed + [milliseconds])
  {
    var more := observed + [milliseconds];
    assert more[..|observed|] == observed;
  }

  lemma CompleteKeepsHistograms(m: Metrics, handle: nat, outcome: Option<IngestionOutcome>, millis: Millis)
    requires HistogramsExact(m) && Shaped(m) && handle < |m.handles|
    ensures HistogramsExact(CompleteIngestion(m, handle, outcome, millis))
  {
    if outcome.Some? && Measured(outcome.value, millis) {
      ObserveExact(HistogramOf(m.histograms, outcome.value), ObservedFor(m.observed, outcome.value), millis.amount);
    }
  }

  lemma {:induction false} AtMostMonotone(observed: seq<real>, low: real, high: real)
    requires low <= high
    ensures AtMost(observed, low) <= AtMost(observed, high) <= |observed|
  {
    if observed != [] { AtMostMonotone(observed[..|observed| - 1], low, high); }
  }

  /** Buckets are cumulative: nondecreasing along the bounds and never above the count. */
  lemma BucketsCumulative(m: Metrics, o: IngestionOutcome, i: nat, j: nat)
    requires HistogramsExact(m) && o in m.histograms && i <= j < |BOUNDS|
    ensures |m.histograms[o].buckets| == |BOUNDS|
    ensures m.histograms[o].buckets[i] <= m.histograms[o].buckets[j] <= m.histograms[o].count
  {
    AtMostMonotone(m.observed[o], BOUNDS[i], BOUNDS[j]);
  }

  // ----- Every interleaving -----

  datatype Step =
    | BeginIngestionStep
    | BeginSignedStep
    | CompleteIngestionStep(handle: nat, ingestion: Option<IngestionOutcome>, millis: Millis)
    | CompleteSignedStep(handle: nat, signed: Option<SignedOutcome>)

  predicate Enabled(m: Metrics, step: Step) {
    match step
    case CompleteIngestionStep(handle, _, _) => handle < |m.handles| && m.handles[handle].kind.IngestionKind?
    case CompleteSignedStep(handle, _) => handle < |m.handles| && m.handles[handle].kind.SignedKind?
    case _ => true
  }

  function Next(m: Metrics, step: Step): Metrics
    requires Shaped(m) && Enabled(m, step)
  {
    match step
    case BeginIngestionStep => BeginIngestion(m)
    case BeginSignedStep => BeginSigned(m)
    case CompleteIngestionStep(handle, outcome, millis) => CompleteIngestion(m, handle, outcome, millis)
    case CompleteSignedStep(handle, outcome) => CompleteSigned(m, handle, outcome)
  }

  ghost predicate Run(m: Metrics, steps: seq<Step>, m': Metrics)
    decreases |steps|
  {
    if steps == [] then m' == m
    else Shaped(m) && Enabled(m, steps[0]) && Run(Next(m, steps[0]), steps[1..], m')
  }

  lemma StepKeepsLaws(m: Metrics, step: Step)
    requires Conserved(m) && HistogramsExact(m) && Shaped(m) && Enabled(m, step)
    ensures Conserved(Next(m, step)) && HistogramsExact(Next(m, step))
  {
    hide Conserved, CompleteIngestion;
    match step
    case BeginIngestionStep => BeginConserves(m);
    case BeginSignedStep => BeginConserves(m);
    case CompleteIngestionStep(handle, outcome, millis) =>
      CompleteIngestionConserves(m, handle, outcome, millis);
      CompleteKeepsHistograms(m, handle, outcome, millis);
    case CompleteSignedStep(handle, outcome) => CompleteSignedConserves(m, handle, outcome);
  }

  lemma {:induction false} RunKeepsLaws(m: Metrics, steps: seq<Step>, m': Metrics)
    requires Conserved(m) && HistogramsExact(m) && Run(m, steps, m')
    ensures Conserved(m') && HistogramsExact(m')
    decreases |steps|
  {
    if steps != [] {
      StepKeepsLaws(m, steps[0]);
      RunKeepsLaws(Next(m, steps[0]), steps[1..], m');
    }
  }

  lemma UntouchedLaws(m: Metrics)
    requires Untouched(m)
    ensures Conserved(m) && HistogramsExact(m)
  {
    hide HistogramExact;
    assert forall key :: Value(m.counters, key) == 0;
  }

  /** In every interleaving of begin and complete calls, repeated completes included, started
      requests are those in flight plus the terminal ones, and histograms are exact. */
  lemma MetricsTellTheTruth(m: Metrics, steps: seq<Step>, m': Metrics)
    requires Untouched(m) && Run(m, steps, m')
    ensures Conserved(m') && HistogramsExact(m')
  {
    hide Conserved, HistogramsExact, Untouched, Run;
    UntouchedLaws(m);
    RunKeepsLaws(m, steps, m');
  }

  /** A repeated complete changes nothing. */
  lemma CompleteOnce(m: Metrics, handle: nat, first: Option<IngestionOutcome>, ms1: Millis,
      second: Option<IngestionOutcome>, ms2: Millis)
    requires Shaped(m) && handle < |m.handles|
    ensures var once := CompleteIngestion(m, handle, first, ms1);
      Shaped(once) && CompleteIngestion(once, handle, second, ms2) == once
  {
  }
}
