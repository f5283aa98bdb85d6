/**
  How a call gets its answer: what a leader's call leaves, what its followers receive, and that no caller is stuck
  (backend/dgate/accounts.py).
 */
module SingleFlightAnswers {
  import opened Wrappers
  import opened SingleFlight
  import opened SingleFlightRuns

  lemma TwoSteps(s: State, x: Step, y: Step)
    ensures Run(s, [x, y]) == Next(Next(s, x), y)
  {
    assert [x, y][1..] == [y] && [y][1..] == [];
    assert Run(Next(s, x), [y]) == Run(Next(Next(s, x), y), []);
  }

  lemma ThreeSteps(s: State, x: Step, y: Step, z: Step)
    ensures Run(s, [x, y, z]) == Next(Next(Next(s, x), y), z)
  {
    assert [x, y, z][1..] == [y, z];
    TwoSteps(Next(s, x), y, z);
  }

  /** A thread without a call asks at the present time; one with a call goes on with that. */
  lemma AskExact(s: State, t: Thread, key: Key, ttl: Time)
    ensures var idle, next := t !in s.threads || s.threads[t].Done?, Next(s, Ask(t, key, ttl));
            && (idle ==> t in next.threads && next.threads[t] == Asked(key, s.clock, ttl))
            && (!idle ==> next == s)
  {
  }

  /** A leader whose computation returns answers its call with the value, gives it to the flight, stores it as the newest
      entry of its key, and leaves the key free to be computed again. */
  lemma LeaderReturns(s: State, t: Thread, v: Value)
    requires Sound(s) && t in s.threads && s.threads[t].Leading?
    ensures var p, end := s.threads[t], Run(s, [Finish(t, v), Publish(t), Resolve(t)]);
            && t in end.threads && end.threads[t] == Done(p.key, Returned(v))
            && p.flight < |end.flights| && end.flights[p.flight].outcome == Some(Returned(v))
            && end.entries != [] && end.entries[|end.entries| - 1] == Entry(p.key, s.clock, v)
            && p.key !in end.inflight && (p.key, v) in end.produced
  {
    ThreeSteps(s, Finish(t, v), Publish(t), Resolve(t));
    assert s.threads[t].flight < |s.flights| by {
      assert Owns(s.flights, t, GripOf(s.threads, t));
    }
    PublishesAndResolves(Next(s, Finish(t, v)), t);
  }

  lemma NewestIsLast(entries: seq<Entry>, e: Entry)
    ensures Stored(entries, e) != [] && Stored(entries, e)[|Stored(entries, e)| - 1] == e
  {
  }

  lemma PublishesAndResolves(s: State, t: Thread)
    requires t in s.threads && s.threads[t].Computed? && s.threads[t].flight < |s.flights|
    ensures var p, end := s.threads[t], Next(Next(s, Publish(t)), Resolve(t));
            && t in end.threads && end.threads[t] == Done(p.key, Returned(p.value))
            && p.flight < |end.flights| && end.flights[p.flight].outcome == Some(Returned(p.value))
            && end.entries == Stored(s.entries, Entry(p.key, s.clock, p.value))
            && end.entries != [] && end.entries[|end.entries| - 1] == Entry(p.key, s.clock, p.value)
            && p.key !in end.inflight && end.produced == s.produced
  {
    NewestIsLast(s.entries, Entry(s.threads[t].key, s.clock, s.threads[t].value));
  }

  /** One whose computation raises raises too, and gives that to the flight; nothing is stored. */
  lemma LeaderRaises(s: State, t: Thread)
    requires Sound(s) && t in s.threads && s.threads[t].Leading?
    ensures var p, end := s.threads[t], Run(s, [Raise(t), Clear(t), Resolve(t)]);
            && t in end.threads && end.threads[t] == Done(p.key, Raised)
            && p.flight < |end.flights| && end.flights[p.flight].outcome == Some(Raised)
            && end.entries == s.entries && p.key !in end.inflight
  {
    ThreeSteps(s, Raise(t), Clear(t), Resolve(t));
    assert s.threads[t].flight < |s.flights| by {
      assert Owns(s.flights, t, GripOf(s.threads, t));
    }
    ClearsAndResolves(Next(s, Raise(t)), t);
  }

  lemma ClearsAndResolves(s: State, t: Thread)
    requires t in s.threads && s.threads[t].Failed? && s.threads[t].flight < |s.flights|
    ensures var p, end := s.threads[t], Next(Next(s, Clear(t)), Resolve(t));
            && t in end.threads && end.threads[t] == Done(p.key, Raised)
            && p.flight < |end.flights| && end.flights[p.flight].outcome == Some(Raised)
            && end.entries == s.entries && p.key !in end.inflight
  {
  }

  /** A follower receives its flight's outcome, whatever that is, and nothing before there is one. */
  lemma FollowerReceives(s: State, u: Thread)
    requires Sound(s) && u in s.threads && s.threads[u].Waiting?
    ensures var q, next := s.threads[u], Next(s, Receive(u));
            && q.flight < |s.flights| && s.flights[q.flight].key == q.key
            && (if s.flights[q.flight].outcome.None? then next == s
                else u in next.threads && next.threads[u] == Done(q.key, s.flights[q.flight].outcome.value))
  {
    assert PhaseGenuine(s, s.threads[u]);
  }

  /** One that waited too long computes for itself, and is answered with what it computed; the cache and the flights are
      left alone. */
  lemma FollowerGoesAlone(s: State, u: Thread, v: Value)
    requires u in s.threads && s.threads[u].Waiting?
    ensures var returned, raised := Run(s, [TimeOut(u), Finish(u, v)]), Run(s, [TimeOut(u), Raise(u)]);
            && u in returned.threads && returned.threads[u] == Done(s.threads[u].key, Returned(v))
            && u in raised.threads && raised.threads[u] == Done(s.threads[u].key, Raised)
            && returned.entries == s.entries && returned.inflight == s.inflight && returned.flights == s.flights
            && raised.entries == s.entries && raised.inflight == s.inflight && raised.flights == s.flights
  {
    TwoSteps(s, TimeOut(u), Finish(u, v));
    TwoSteps(s, TimeOut(u), Raise(u));
  }

  /** The caller's steps to an answer from where it is, if its computations return `v`. */
  function WayHome(p: Phase, t: Thread, v: Value): seq<Step> {
    match p
    case Asked(_, _, _) => [Enter(t)]
    case Leading(_, _) => [Finish(t, v), Publish(t), Resolve(t)]
    case Computed(_, _, _) => [Publish(t), Resolve(t)]
    case Failed(_, _) => [Clear(t), Resolve(t)]
    case Published(_, _, _) => [Resolve(t)]
    case Cleared(_, _) => [Resolve(t)]
    case Waiting(_, _) => [TimeOut(t), Finish(t, v)]
    case Alone(_) => [Finish(t, v)]
    case Done(_, _) => []
  }

  /** No caller is stuck: from every state its own steps bring it an answer, or, where it has only asked, past the cache. */
  lemma NobodyIsStuck(s: State, t: Thread, v: Value)
    requires t in s.threads
    ensures var end := Run(s, WayHome(s.threads[t], t, v));
            t in end.threads && (if s.threads[t].Asked? then !end.threads[t].Asked? else end.threads[t].Done?)
            && end.threads[t].key == s.threads[t].key
  {
    var p := s.threads[t];
    match p
    case Asked(_, _, _) => OneStep(s, Enter(t));
    case Leading(_, _) => ThreeSteps(s, Finish(t, v), Publish(t), Resolve(t));
    case Computed(_, _, _) => TwoSteps(s, Publish(t), Resolve(t));
    case Failed(_, _) => TwoSteps(s, Clear(t), Resolve(t));
    case Published(_, _, _) => OneStep(s, Resolve(t));
    case Cleared(_, _) => OneStep(s, Resolve(t));
    case Waiting(_, _) => TwoSteps(s, TimeOut(t), Finish(t, v));
    case Alone(_) => OneStep(s, Finish(t, v));
    case Done(_, _) =>
  }

  lemma OneStep(s: State, x: Step)
    ensures Run(s, [x]) == Next(s, x)
  {
    assert [x][1..] == [];
  }

  /** Time passes for everybody alike. */
  lemma TimePasses(s: State, n: nat)
    ensures Next(s, Pass(n)) == s.(clock := Next(s, Pass(n)).clock) && Next(s, Pass(n)).clock - s.clock == n
  {
  }
}
