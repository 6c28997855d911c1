/** Sharing one backend refresh among the requests of a BFF process (session-refresh.ts). */
module SingleFlight {
  import opened Outcomes

  /** SHA-256 of a refresh token, the key of the single-flight table. */
  type Key = string

  datatype Settled = Refreshed(accessToken: string, refreshToken: string) | Rejected(status: int)

  /** One shared promise: the backend call, its reply, and whether `finally` has run. */
  datatype Flight = Flight(key: Key, reply: Option<Settled>, finished: bool)

  /** Flights in the order started; the module-level table; who awaits or has received what. */
  datatype Process = Process(
    flights: seq<Flight>, table: map<Key, nat>, joined: map<nat, nat>, keyOf: map<nat, Key>,
    received: map<nat, Settled>)

  datatype Step =
    | Arrive(request: nat, key: Key)
    | Reply(flight: nat, settled: Settled)
    | Finish(flight: nat)
    | Resume(request: nat)

  predicate Enabled(p: Process, step: Step) {
    match step
    case Arrive(request, _) => request !in p.joined
    case Reply(flight, _) => flight < |p.flights| && p.flights[flight].reply.None?
    case Finish(flight) => flight < |p.flights| && p.flights[flight].reply.Some? && !p.flights[flight].finished
    case Resume(request) =>
      && request in p.joined && request !in p.received
      && p.joined[request] < |p.flights| && p.flights[p.joined[request]].finished
      && p.flights[p.joined[request]].reply.Some?
  }

  function Next(p: Process, step: Step): Process
    requires Enabled(p, step)
  {
    match step
    case Arrive(request, key) =>
      if key in p.table then
        p.(joined := p.joined[request := p.table[key]], keyOf := p.keyOf[request := key])
      else
        p.(flights := p.flights + [Flight(key, None, false)],
           table := p.table[key := |p.flights|],
           joined := p.joined[request := |p.flights|],
           keyOf := p.keyOf[request := key])
    case Reply(flight, settled) => p.(flights := p.flights[flight := p.flights[flight].(reply := Some(settled))])
    case Finish(flight) =>
      p.(flights := p.flights[flight := p.flights[flight].(finished := true)],
         table := p.table - {p.flights[flight].key})
    case Resume(request) => p.(received := p.received[request := p.flights[p.joined[request]].reply.value])
  }

  class RefreshProcess {
    var flights: seq<Flight>
    var table: map<Key, nat>
    var joined: map<nat, nat>
    ghost var keyOf: map<nat, Key>
    var received: map<nat, Settled>

    ghost function Contents(): Process
      reads this
    {
      Process(flights, table, joined, keyOf, received)
    }

    /** Look the key up; only the first caller starts a backend call and stores its promise. */
    method JoinOrStart(request: nat, key: Key) returns (calledBackend: bool)
      requires Enabled(Contents(), Arrive(request, key))
      modifies this
      ensures Contents() == Next(old(Contents()), Arrive(request, key))
      ensures calledBackend <==> key !in old(table)
    {
      calledBackend := key !in table;
      if calledBackend {
        table := table[key := |flights|];
        flights := flights + [Flight(key, None, false)];
      }
      joined := joined[request := table[key]];
      keyOf := keyOf[request := key];
    }

    method BackendReplied(flight: nat, settled: Settled)
      requires Enabled(Contents(), Reply(flight, settled))
      modifies this
      ensures Contents() == Next(old(Contents()), Reply(flight, settled))
    {
      flights := flights[flight := flights[flight].(reply := Some(settled))];
    }

    /** `.finally(() => singleFlightMap.delete(flightKey))`. */
    method FinishFlight(flight: nat)
      requires Enabled(Contents(), Finish(flight))
      modifies this
      ensures Contents() == Next(old(Contents()), Finish(flight))
    {
      table := table - {flights[flight].key};
      flights := flights[flight := flights[flight].(finished := true)];
    }

    method ResumeRequest(request: nat) returns (settled: Settled)
      requires Enabled(Contents(), Resume(request))
      modifies this
      ensures Contents() == Next(old(Contents()), Resume(request)) && settled == received[request]
    {
      settled := flights[joined[request]].reply.value;
      received := received[request := settled];
    }
  }

  // ----- Runs -----

  ghost predicate Run(p: Process, steps: seq<Step>, p': Process)
    decreases |steps|
  {
    if steps == [] then p' == p
    else Enabled(p, steps[0]) && Run(Next(p, steps[0]), steps[1..], p')
  }

  const IDLE := Process([], map[], map[], map[], map[])

  /** The table holds exactly the unfinished flights, each under its own key. */
  ghost predicate TableExact(p: Process) {
    && (forall f | 0 <= f < |p.flights| && !p.flights[f].finished ::
          p.flights[f].key in p.table && p.table[p.flights[f].key] == f)
    && (forall k | k in p.table ::
          p.table[k] < |p.flights| && p.flights[p.table[k]].key == k && !p.flights[p.table[k]].finished)
    && (forall f | 0 <= f < |p.flights| && p.flights[f].finished :: p.flights[f].reply.Some?)
  }

  /** Every request waits for, or has received the reply of, a flight for its own token. */
  ghost predicate JoinersServed(p: Process) {
    && p.joined.Keys == p.keyOf.Keys
    && (forall r | r in p.joined :: p.joined[r] < |p.flights| && p.flights[p.joined[r]].key == p.keyOf[r])
    && (forall r | r in p.received :: r in p.joined && p.flights[p.joined[r]].reply == Some(p.received[r]))
  }

  lemma StartKeepsTable(p: Process, key: Key)
    requires TableExact(p) && key !in p.table
    ensures TableExact(p.(flights := p.flights + [Flight(key, None, false)], table := p.table[key := |p.flights|]))
  {
  }

  lemma FinishKeepsTable(p: Process, f: nat)
    requires TableExact(p) && Enabled(p, Finish(f))
    ensures TableExact(Next(p, Finish(f)))
  {
    var key := p.flights[f].key;
    forall g | 0 <= g < |p.flights| && g != f && !p.flights[g].finished ensures p.flights[g].key != key {
      assert p.table[p.flights[g].key] == g && p.table[key] == f;
    }
  }

  lemma StepKeepsTable(p: Process, step: Step)
    requires TableExact(p) && Enabled(p, step)
    ensures TableExact(Next(p, step))
  {
    match step
    case Arrive(request, key) =>
      if key !in p.table {
        StartKeepsTable(p, key);
        SameTable(p.(flights := p.flights + [Flight(key, None, false)], table := p.table[key := |p.flights|]),
                  Next(p, step));
      } else {
        SameTable(p, Next(p, step));
      }
    case Reply(_, _) =>
    case Finish(flight) => FinishKeepsTable(p, flight);
    case Resume(_) => SameTable(p, Next(p, step));
  }

  lemma SameTable(p: Process, p': Process)
    requires TableExact(p) && p'.flights == p.flights && p'.table == p.table
    ensures TableExact(p')
  {
  }

  lemma JoinKeepsJoiners(p: Process, request: nat, key: Key, f: nat)
    requires JoinersServed(p) && request !in p.joined && f < |p.flights| && p.flights[f].key == key
    ensures JoinersServed(p.(joined := p.joined[request := f], keyOf := p.keyOf[request := key]))
  {
  }

  lemma ArriveKeepsJoiners(p: Process, request: nat, key: Key)
    requires TableExact(p) && JoinersServed(p) && Enabled(p, Arrive(request, key))
    ensures JoinersServed(Next(p, Arrive(request, key)))
  {
    hide JoinersServed;
    if key in p.table {
      JoinKeepsJoiners(p, request, key, p.table[key]);
    } else {
      hide TableExact;
      var started := p.(flights := p.flights + [Flight(key, None, false)], table := p.table[key := |p.flights|]);
      FlightKeepsJoiners(p, started);
      JoinKeepsJoiners(started, request, key, |p.flights|);
    }
  }

  /** Flights change no key, and no reply once it is there. */
  lemma FlightKeepsJoiners(p: Process, p': Process)
    requires JoinersServed(p) && p'.joined == p.joined && p'.keyOf == p.keyOf && p'.received == p.received
    requires |p'.flights| >= |p.flights|
    requires forall f | 0 <= f < |p.flights| :: p'.flights[f].key == p.flights[f].key
    requires forall f | 0 <= f < |p.flights| && p.flights[f].reply.Some? :: p'.flights[f].reply == p.flights[f].reply
    ensures JoinersServed(p')
  {
  }

  lemma ResumeKeepsJoiners(p: Process, request: nat)
    requires JoinersServed(p) && Enabled(p, Resume(request))
    ensures JoinersServed(Next(p, Resume(request)))
  {
  }

  lemma StepKeepsJoiners(p: Process, step: Step)
    requires TableExact(p) && JoinersServed(p) && Enabled(p, step)
    ensures JoinersServed(Next(p, step))
  {
    hide TableExact, JoinersServed;
    match step
    case Arrive(request, key) => ArriveKeepsJoiners(p, request, key);
    case Reply(_, _) => FlightKeepsJoiners(p, Next(p, step));
    case Finish(_) => FlightKeepsJoiners(p, Next(p, step));
    case Resume(request) => ResumeKeepsJoiners(p, request);
  }

  lemma {:induction false} RunKeepsInvariants(p: Process, steps: seq<Step>, p': Process)
    requires TableExact(p) && JoinersServed(p) && Run(p, steps, p')
    ensures TableExact(p') && JoinersServed(p')
    decreases |steps|
  {
    if steps != [] {
      StepKeepsTable(p, steps[0]);
      StepKeepsJoiners(p, steps[0]);
      RunKeepsInvariants(Next(p, steps[0]), steps[1..], p');
    }
  }

  predicate Outstanding(p: Process, f: nat, key: Key) {
    f < |p.flights| && p.flights[f].key == key && p.flights[f].reply.None?
  }

  /** In every interleaving at most one backend refresh per token is outstanding. */
  lemma OneOutstandingPerToken(steps: seq<Step>, p: Process, f: nat, g: nat, key: Key)
    requires Run(IDLE, steps, p) && Outstanding(p, f, key) && Outstanding(p, g, key)
    ensures f == g
  {
    RunKeepsInvariants(IDLE, steps, p);
  }

  /** A request that arrives while its token's call is outstanding makes no call of its own. */
  lemma ArrivalsShare(steps: seq<Step>, p: Process, f: nat, key: Key, request: nat)
    requires Run(IDLE, steps, p) && Outstanding(p, f, key) && Enabled(p, Arrive(request, key))
    ensures var next := Next(p, Arrive(request, key));
      next.flights == p.flights && next.joined[request] == f
  {
    RunKeepsInvariants(IDLE, steps, p);
  }

  /** All requests sharing a flight receive the same result, a reply for their own token. */
  lemma JoinersAgree(steps: seq<Step>, p: Process, r1: nat, r2: nat)
    requires Run(IDLE, steps, p) && r1 in p.received && r2 in p.received
    ensures r1 in p.joined && r2 in p.joined && r1 in p.keyOf && r2 in p.keyOf
    ensures p.joined[r1] == p.joined[r2] ==> p.received[r1] == p.received[r2] && p.keyOf[r1] == p.keyOf[r2]
  {
    RunKeepsInvariants(IDLE, steps, p);
  }

  /** The run from p holds this reply of the backend to that flight. */
  predicate RepliedIn(steps: seq<Step>, flight: nat, settled: Settled) {
    Reply(flight, settled) in steps
  }

  lemma StepReplies(p: Process, step: Step, f: nat)
    requires Enabled(p, step) && f < |Next(p, step).flights| && Next(p, step).flights[f].reply.Some?
    ensures (f < |p.flights| && p.flights[f].reply == Next(p, step).flights[f].reply)
      || step == Reply(f, Next(p, step).flights[f].reply.value)
  {
  }

  lemma {:induction false} RepliesAreBackends(p: Process, steps: seq<Step>, p': Process, f: nat)
    requires Run(p, steps, p') && f < |p'.flights| && p'.flights[f].reply.Some?
    ensures (f < |p.flights| && p.flights[f].reply == p'.flights[f].reply)
      || RepliedIn(steps, f, p'.flights[f].reply.value)
    decreases |steps|
  {
    if steps != [] {
      hide Next, Enabled;
      var next := Next(p, steps[0]);
      RepliesAreBackends(next, steps[1..], p', f);
      if f < |next.flights| && next.flights[f].reply == p'.flights[f].reply { StepReplies(p, steps[0], f); }
    }
  }

  /** Whatever a request receives is what the backend replied to the flight it shares. */
  lemma ReceivedIsReply(steps: seq<Step>, p: Process, request: nat)
    requires Run(IDLE, steps, p) && request in p.received
    ensures request in p.joined && RepliedIn(steps, p.joined[request], p.received[request])
  {
    RunKeepsInvariants(IDLE, steps, p);
    RepliesAreBackends(IDLE, steps, p, p.joined[request]);
  }
}
