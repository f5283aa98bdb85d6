/**
  Every interleaving of the threads keeps the protocol of `SingleFlight` sound.
 */
module SingleFlightRuns {
  import opened Wrappers
  import opened SingleFlight

  // ------------------------------------------------------------------ order of use

  lemma TouchedByUse(entries: seq<Entry>, uses: map<Key, nat>, i: nat, tick: nat)
    requires i < |entries| && ByUse(entries, uses)
    requires forall k :: k in uses ==> uses[k] < tick
    ensures ByUse(Touched(entries, i), uses[entries[i].key := tick])
    ensures |Touched(entries, i)| == |entries|
    ensures forall e :: e in Touched(entries, i) ==> e in entries
  {
  }

  /** The entries after a publication and before the eviction. */
  function Added(entries: seq<Entry>, e: Entry): seq<Entry> {
    var at := Find(entries, e.key);
    (if at.Some? then Without(entries, at.value) else entries) + [e]
  }

  lemma WithoutByUse(entries: seq<Entry>, uses: map<Key, nat>, i: nat)
    requires i < |entries| && ByUse(entries, uses)
    ensures ByUse(Without(entries, i), uses)
    ensures forall x :: x in Without(entries, i) <==> x in entries && x.key != entries[i].key
  {
  }

  lemma EndedByUse(entries: seq<Entry>, uses: map<Key, nat>, e: Entry, tick: nat)
    requires ByUse(entries, uses) && forall x :: x in entries ==> x.key != e.key
    requires forall k :: k in uses ==> uses[k] < tick
    ensures ByUse(entries + [e], uses[e.key := tick])
  {
    assert forall i :: 0 <= i < |entries| ==> entries[i] in entries;
  }

  lemma AddedByUse(entries: seq<Entry>, uses: map<Key, nat>, e: Entry, tick: nat)
    requires ByUse(entries, uses)
    requires forall k :: k in uses ==> uses[k] < tick
    ensures ByUse(Added(entries, e), uses[e.key := tick])
    ensures forall x :: x in Added(entries, e) <==> x == e || (x in entries && x.key != e.key)
  {
    var at := Find(entries, e.key);
    if at.Some? {
      WithoutByUse(entries, uses, at.value);
      EndedByUse(Without(entries, at.value), uses, e, tick);
    } else {
      EndedByUse(entries, uses, e, tick);
    }
  }

  lemma SuffixByUse(all: seq<Entry>, uses: map<Key, nat>, d: nat)
    requires d <= |all| && ByUse(all, uses)
    ensures ByUse(all[d..], uses)
    ensures forall x :: x in all[d..] ==> x in all
  {
  }

  lemma StoredByUse(entries: seq<Entry>, uses: map<Key, nat>, e: Entry, tick: nat)
    requires ByUse(entries, uses)
    requires forall k :: k in uses ==> uses[k] < tick
    ensures |Stored(entries, e)| <= CACHE_ENTRIES && ByUse(Stored(entries, e), uses[e.key := tick])
    ensures forall x :: x in Stored(entries, e) ==> x in entries || x == e
  {
    AddedByUse(entries, uses, e, tick);
    var all := Added(entries, e);
    SuffixByUse(all, uses[e.key := tick], if |all| > CACHE_ENTRIES then |all| - CACHE_ENTRIES else 0);
  }

  lemma DroppedBeforeKept(all: seq<Entry>, uses: map<Key, nat>, d: nat, gone: Entry, kept: Entry)
    requires d <= |all| && ByUse(all, uses) && gone in all && gone !in all[d..] && kept in all[d..]
    ensures kept.key in uses && gone.key in uses && uses[gone.key] < uses[kept.key]
  {
    forall k | d <= k < |all| ensures all[k] in all[d..] {
      assert all[d..][k - d] == all[k];
    }
    var i :| 0 <= i < |all| && all[i] == gone;
    var j :| 0 <= j < |all[d..]| && all[d..][j] == kept;
    assert all[j + d] == kept;
  }

  /** What a publication drops, the key's own entry apart, was used before everything it keeps, and the new
      entry stays. */
  lemma EvictsLeastRecentlyUsed(entries: seq<Entry>, uses: map<Key, nat>, e: Entry, tick: nat, gone: Entry, kept: Entry)
    requires ByUse(entries, uses)
    requires forall k :: k in uses ==> uses[k] < tick
    requires gone in entries && gone.key != e.key && gone !in Stored(entries, e)
    requires kept in Stored(entries, e)
    ensures e in Stored(entries, e) && |Stored(entries, e)| == CACHE_ENTRIES
    ensures var later := uses[e.key := tick];
            kept.key in later && gone.key in later && later[gone.key] < later[kept.key]
  {
    AddedByUse(entries, uses, e, tick);
    var all := Added(entries, e);
    var d := if |all| > CACHE_ENTRIES then |all| - CACHE_ENTRIES else 0;
    assert all[d..][|all| - d - 1] == all[|all| - 1] == e;
    DroppedBeforeKept(all, uses[e.key := tick], d, gone, kept);
  }

  // ------------------------------------------------------------------ one step: the cache

  lemma CacheStaysOrdered(s: State, step: Step)
    requires CacheOrdered(s)
    ensures CacheOrdered(Next(s, step))
  {
    if step.Enter? && step.thread in s.threads && s.threads[step.thread].Asked? {
      var at := Find(s.entries, s.threads[step.thread].key);
      if at.Some? {
        TouchedByUse(s.entries, s.uses, at.value, s.ticks);
      }
    } else if step.Publish? && step.thread in s.threads && s.threads[step.thread].Computed? {
      var p := s.threads[step.thread];
      StoredByUse(s.entries, s.uses, Entry(p.key, s.clock, p.value), s.ticks);
    }
  }

  // ------------------------------------------------------------------ one step: marks and flights

  /** A thread that keeps its grip, or has none before and after, changes nothing of who owns what. */
  lemma SameGripsKeep(s: State, next: State)
    requires FlightsOwned(s.inflight, s.flights, s.threads)
    requires next.inflight == s.inflight && next.flights == s.flights
    requires forall t :: GripOf(next.threads, t) == GripOf(s.threads, t)
    ensures FlightsOwned(next.inflight, next.flights, next.threads)
  {
  }

  lemma NewLeaderKeeps(s: State, next: State, t: Thread, key: Key)
    requires FlightsOwned(s.inflight, s.flights, s.threads) && GripOf(s.threads, t) == Loose && key !in s.inflight
    requires next.inflight == s.inflight[key := |s.flights|] && next.flights == s.flights + [Flight(key, t, None)]
    requires forall u :: GripOf(next.threads, u) == if u == t then Marked(key, |s.flights|) else GripOf(s.threads, u)
    ensures FlightsOwned(next.inflight, next.flights, next.threads)
  {
  }

  /** The leader takes its own mark down. */
  lemma MarkDownKeeps(s: State, next: State, t: Thread)
    requires FlightsOwned(s.inflight, s.flights, s.threads) && GripOf(s.threads, t).Marked?
    requires var g := GripOf(s.threads, t);
             && next.inflight == s.inflight - {g.key} && next.flights == s.flights
             && forall u :: GripOf(next.threads, u) == if u == t then Unmarked(g.key, g.flight) else GripOf(s.threads, u)
    ensures FlightsOwned(next.inflight, next.flights, next.threads)
  {
  }

  lemma ResolvedKeeps(s: State, next: State, t: Thread, answer: Answer)
    requires FlightsOwned(s.inflight, s.flights, s.threads) && GripOf(s.threads, t).Unmarked?
    requires var g := GripOf(s.threads, t);
             && next.inflight == s.inflight && next.flights == Settled(s.flights, g.flight, answer)
             && forall u :: GripOf(next.threads, u) == if u == t then Loose else GripOf(s.threads, u)
    ensures FlightsOwned(next.inflight, next.flights, next.threads)
  {
  }

  lemma EnterKeepsOwned(s: State, t: Thread)
    requires FlightsOwned(s.inflight, s.flights, s.threads)
    ensures var next := Next(s, Enter(t)); FlightsOwned(next.inflight, next.flights, next.threads)
  {
    if t in s.threads && s.threads[t].Asked? {
      EnteredMeans(s, t);
      var next := Next(s, Enter(t));
      if next.inflight == s.inflight {
        SameGripsKeep(s, next);
      } else {
        NewLeaderKeeps(s, next, t, s.threads[t].key);
      }
    }
  }

  /** Entering makes the thread the leader of a key not being computed, or moves no grip. */
  lemma EnteredMeans(s: State, t: Thread)
    requires t in s.threads && s.threads[t].Asked?
    ensures var next, key := Next(s, Enter(t)), s.threads[t].key;
            if next.inflight == s.inflight then
              next.flights == s.flights && forall u :: GripOf(next.threads, u) == GripOf(s.threads, u)
            else
              && key !in s.inflight && next.inflight == s.inflight[key := |s.flights|]
              && next.flights == s.flights + [Flight(key, t, None)]
              && forall u :: GripOf(next.threads, u) == if u == t then Marked(key, |s.flights|) else GripOf(s.threads, u)
  {
  }

  lemma PublishKeepsOwned(s: State, t: Thread)
    requires FlightsOwned(s.inflight, s.flights, s.threads)
    ensures var next := Next(s, Publish(t)); FlightsOwned(next.inflight, next.flights, next.threads)
  {
    if t in s.threads && s.threads[t].Computed? {
      PublishedMeans(s, t);
      MarkDownKeeps(s, Next(s, Publish(t)), t);
    }
  }

  lemma PublishedMeans(s: State, t: Thread)
    requires t in s.threads && s.threads[t].Computed?
    ensures var next, p := Next(s, Publish(t)), s.threads[t];
            && next.inflight == s.inflight - {p.key} && next.flights == s.flights
            && forall u :: GripOf(next.threads, u) == if u == t then Unmarked(p.key, p.flight) else GripOf(s.threads, u)
  {
  }

  lemma ClearKeepsOwned(s: State, t: Thread)
    requires FlightsOwned(s.inflight, s.flights, s.threads)
    ensures var next := Next(s, Clear(t)); FlightsOwned(next.inflight, next.flights, next.threads)
  {
    var next := Next(s, Clear(t));
    if t in s.threads && s.threads[t] != next.threads[t] {
      MarkDownKeeps(s, next, t);
    }
  }

  lemma ResolveKeepsOwned(s: State, t: Thread)
    requires FlightsOwned(s.inflight, s.flights, s.threads)
    ensures var next := Next(s, Resolve(t)); FlightsOwned(next.inflight, next.flights, next.threads)
  {
    if t in s.threads && GripOf(s.threads, t).Unmarked? {
      var p := s.threads[t];
      ResolvedKeeps(s, Next(s, Resolve(t)), t, if p.Published? then Returned(p.value) else Raised);
    }
  }

  predicate MovesGrip(step: Step) {
    step.Enter? || step.Publish? || step.Clear? || step.Resolve?
  }

  lemma QuietStepKeepsOwned(s: State, step: Step)
    requires FlightsOwned(s.inflight, s.flights, s.threads) && !MovesGrip(step)
    ensures var next := Next(s, step); FlightsOwned(next.inflight, next.flights, next.threads)
  {
    QuietStepMeans(s, step);
    SameGripsKeep(s, Next(s, step));
  }

  lemma QuietStepMeans(s: State, step: Step)
    requires !MovesGrip(step)
    ensures var next := Next(s, step);
            && next.inflight == s.inflight && next.flights == s.flights
            && forall t :: GripOf(next.threads, t) == GripOf(s.threads, t)
  {
  }

  lemma FlightsStayOwned(s: State, step: Step)
    requires FlightsOwned(s.inflight, s.flights, s.threads)
    ensures var next := Next(s, step); FlightsOwned(next.inflight, next.flights, next.threads)
  {
    match step
    case Enter(t) => EnterKeepsOwned(s, t);
    case Publish(t) => PublishKeepsOwned(s, t);
    case Clear(t) => ClearKeepsOwned(s, t);
    case Resolve(t) => ResolveKeepsOwned(s, t);
    case _ => QuietStepKeepsOwned(s, step);
  }

  // ------------------------------------------------------------------ one step: values

  lemma EnterStaysGenuine(s: State, t: Thread)
    requires FlightsOwned(s.inflight, s.flights, s.threads) && Genuine(s)
    requires t in s.threads && s.threads[t].Asked?
    ensures PhaseGenuine(Next(s, Enter(t)), Next(s, Enter(t)).threads[t])
  {
  }

  lemma OutcomesStayGenuine(s: State, step: Step)
    requires FlightsOwned(s.inflight, s.flights, s.threads) && Genuine(s)
    ensures OutcomesGenuine(Next(s, step).flights, Next(s, step).produced)
  {
    if step.Resolve? && GripOf(s.threads, step.thread).Unmarked? {
      assert Owns(s.flights, step.thread, GripOf(s.threads, step.thread));
      assert PhaseGenuine(s, s.threads[step.thread]);
    }
  }

  lemma OthersStayGenuine(s: State, step: Step, t: Thread)
    requires Genuine(s) && t in s.threads && (step.Pass? || step.thread != t)
    ensures t in Next(s, step).threads && PhaseGenuine(Next(s, step), Next(s, step).threads[t])
  {
    OthersStayPut(s, step, t);
    StaysGenuine(s, Next(s, step), s.threads[t]);
  }

  lemma OthersStayPut(s: State, step: Step, t: Thread)
    requires t in s.threads && (step.Pass? || step.thread != t)
    ensures t in Next(s, step).threads && Next(s, step).threads[t] == s.threads[t]
    ensures s.produced <= Next(s, step).produced
    ensures SameFlights(s.flights, Next(s, step).flights)
  {
    FlightsStay(s, step);
  }

  /** No flight goes or changes its key. */
  ghost predicate SameFlights(before: seq<Flight>, after: seq<Flight>) {
    |before| <= |after| && forall f :: 0 <= f < |before| ==> after[f].key == before[f].key
  }

  lemma FlightsStay(s: State, step: Step)
    ensures SameFlights(s.flights, Next(s, step).flights)
  {
  }

  lemma StaysGenuine(s: State, next: State, p: Phase)
    requires PhaseGenuine(s, p) && s.produced <= next.produced && SameFlights(s.flights, next.flights)
    ensures PhaseGenuine(next, p)
  {
  }

  lemma OwnStaysGenuine(s: State, step: Step)
    requires FlightsOwned(s.inflight, s.flights, s.threads) && Genuine(s)
    requires !step.Pass? && step.thread in Next(s, step).threads
    ensures PhaseGenuine(Next(s, step), Next(s, step).threads[step.thread])
  {
    if step.thread in s.threads {
      assert PhaseGenuine(s, s.threads[step.thread]);
      if step.Enter? && s.threads[step.thread].Asked? {
        EnterStaysGenuine(s, step.thread);
      }
    }
  }

  lemma ValuesStayGenuine(s: State, step: Step)
    requires CacheOrdered(s) && FlightsOwned(s.inflight, s.flights, s.threads) && Genuine(s)
    ensures Genuine(Next(s, step))
  {
    var next := Next(s, step);
    EntriesStayGenuine(s, step);
    OutcomesStayGenuine(s, step);
    forall t | t in next.threads ensures PhaseGenuine(next, next.threads[t]) {
      if !step.Pass? && step.thread == t {
        OwnStaysGenuine(s, step);
      } else {
        OthersStayGenuine(s, step, t);
      }
    }
  }

  lemma EntriesStayGenuine(s: State, step: Step)
    requires CacheOrdered(s) && Genuine(s)
    ensures var next := Next(s, step);
            forall i :: 0 <= i < |next.entries| ==> (next.entries[i].key, next.entries[i].value) in next.produced
  {
  }

  lemma StepKeeps(s: State, step: Step)
    requires Sound(s)
    ensures Sound(Next(s, step))
  {
    CacheStaysOrdered(s, step);
    FlightsStayOwned(s, step);
    ValuesStayGenuine(s, step);
  }

  // ------------------------------------------------------------------ every interleaving

  /** The thread is the one computing its key for the others. */
  predicate LeadsKey(s: State, t: Thread, key: Key) {
    GripOf(s.threads, t).Marked? && GripOf(s.threads, t).key == key
  }

  /** At most one thread computes a key for the others at any time. */
  lemma LeaderIsUnique(s: State, t: Thread, u: Thread, key: Key)
    requires Sound(s) && LeadsKey(s, t, key) && LeadsKey(s, u, key)
    ensures t == u
  {
  }

  lemma {:induction false} RunKeeps(s: State, steps: seq<Step>)
    requires Sound(s)
    ensures Sound(Run(s, steps))
    decreases |steps|
  {
    if steps != [] {
      StepKeeps(s, steps[0]);
      RunKeeps(Next(s, steps[0]), steps[1..]);
    }
  }

  /** From an empty cache, in every interleaving: one leader a key, never more than 200 entries, and every
      answer for a key is a value that a computation of that key returned. */
  lemma EveryRunIsSound(steps: seq<Step>)
    ensures var s := Run(Start(), steps);
            && |s.entries| <= 200
            && (forall t, u, k :: LeadsKey(s, t, k) && LeadsKey(s, u, k) ==> t == u)
            && (forall t, k, v :: t in s.threads && s.threads[t] == Done(k, Returned(v)) ==> (k, v) in s.produced)
  {
    RunKeeps(Start(), steps);
    var s := Run(Start(), steps);
    forall t, u, k | LeadsKey(s, t, k) && LeadsKey(s, u, k) ensures t == u {
      LeaderIsUnique(s, t, u, k);
    }
    forall t, k, v | t in s.threads && s.threads[t] == Done(k, Returned(v)) ensures (k, v) in s.produced {
      assert PhaseGenuine(s, s.threads[t]);
    }
  }

  // ------------------------------------------------------------------ flights

  /** A flight is resolved by its leader and by no other step, and what it was resolved to stays. */
  lemma ResolvedByItsLeader(s: State, step: Step, f: FlightId)
    requires Sound(s) && f < |s.flights|
    ensures f < |Next(s, step).flights|
    ensures var before, after := s.flights[f], Next(s, step).flights[f];
            && before.key == after.key && before.leader == after.leader
            && (before.outcome.Some? ==> after == before)
            && (before.outcome.None? && after.outcome.Some? ==> step == Resolve(before.leader))
  {
    if step.Resolve? && GripOf(s.threads, step.thread).Unmarked? {
      assert Owns(s.flights, step.thread, GripOf(s.threads, step.thread));
    }
  }

  /** Over every run a resolved flight keeps its outcome. */
  lemma {:induction false} ResolvedOnce(s: State, steps: seq<Step>, f: FlightId)
    requires Sound(s) && f < |s.flights| && s.flights[f].outcome.Some?
    ensures f < |Run(s, steps).flights| && Run(s, steps).flights[f] == s.flights[f]
    decreases |steps|
  {
    if steps != [] {
      ResolvedByItsLeader(s, steps[0], f);
      StepKeeps(s, steps[0]);
      ResolvedOnce(Next(s, steps[0]), steps[1..], f);
    }
  }

  /** The steps by which a leader resolves its flight from where it is. */
  function WayOut(s: State, t: Thread): seq<Step> {
    if t !in s.threads then []
    else
      match s.threads[t]
      case Leading(_, _) => [Raise(t), Clear(t), Resolve(t)]
      case Computed(_, _, _) => [Publish(t), Resolve(t)]
      case Failed(_, _) => [Clear(t), Resolve(t)]
      case Published(_, _, _) => [Resolve(t)]
      case Cleared(_, _) => [Resolve(t)]
      case _ => []
  }

  /** An unresolved flight is never abandoned: its leader alone can resolve it, from wherever it is. */
  lemma {:induction false} LeaderCanResolve(s: State, f: FlightId)
    requires Sound(s) && f < |s.flights| && s.flights[f].outcome.None?
    ensures var end := Run(s, WayOut(s, s.flights[f].leader));
            f < |end.flights| && end.flights[f].outcome.Some?
    decreases |WayOut(s, s.flights[f].leader)|
  {
    var t := s.flights[f].leader;
    var way := WayOut(s, t);
    OnTheWay(s, f);
    var next := Next(s, way[0]);
    if |way| > 1 {
      StepKeeps(s, way[0]);
      ResolvedByItsLeader(s, way[0], f);
      LeaderCanResolve(next, f);
    } else {
      assert Run(next, way[1..]) == next;
    }
  }

  /** The first step of the way out leads to the rest of it; the last one resolves the flight. */
  lemma OnTheWay(s: State, f: FlightId)
    requires FlightsOwned(s.inflight, s.flights, s.threads) && f < |s.flights| && s.flights[f].outcome.None?
    ensures var t := s.flights[f].leader;
            var way := WayOut(s, t);
            && way != [] && WayOut(Next(s, way[0]), t) == way[1..]
            && f < |Next(s, way[0]).flights|
            && (if |way| == 1 then Next(s, way[0]).flights[f].outcome.Some? else !way[0].Resolve?)
  {
    var t := s.flights[f].leader;
    assert GripOf(s.threads, t) != Loose && GripOf(s.threads, t).flight == f;
    WayGetsShorter(s, t);
  }

  lemma WayGetsShorter(s: State, t: Thread)
    requires GripOf(s.threads, t) != Loose
    ensures var way := WayOut(s, t);
            && way != [] && WayOut(Next(s, way[0]), t) == way[1..]
            && (if |way| == 1 then GripOf(s.threads, t).Unmarked? && way[0] == Resolve(t)
                else !way[0].Resolve? && Next(s, way[0]).flights == s.flights)
  {
  }

  /** A computation that raised stores nothing and takes its mark down, so the next caller leads again. */
  lemma FailureLeavesNothing(s: State, t: Thread)
    requires Sound(s) && t in s.threads && s.threads[t].Failed?
    ensures var next := Next(s, Clear(t));
            next.entries == s.entries && next.uses == s.uses && s.threads[t].key in s.inflight && s.threads[t].key !in next.inflight
  {
    assert GripOf(s.threads, t).Marked?;
  }

  /** An answer taken from the cache was stored less than the caller's ttl before the caller's own clock
      reading, and was computed for the key asked for. */
  lemma HitIsFresh(s: State, t: Thread)
    requires Sound(s) && t in s.threads && s.threads[t].Asked?
    requires Next(s, Enter(t)).threads[t].Done?
    ensures var p := s.threads[t];
            exists e :: e in s.entries && e.key == p.key && p.now - e.at < p.ttl
                        && Next(s, Enter(t)).threads[t] == Done(p.key, Returned(e.value))
                        && (e.key, e.value) in s.produced
  {
  }

  /** While a key is being computed, whoever asks for it is answered from the cache or waits. */
  lemma AskersWait(s: State, t: Thread, u: Thread)
    requires Sound(s) && u in s.threads && s.threads[u].Asked? && LeadsKey(s, t, s.threads[u].key)
    ensures var q := Next(s, Enter(u)).threads[u];
            q.Done? || q == Waiting(s.threads[u].key, GripOf(s.threads, t).flight)
  {
  }
}
