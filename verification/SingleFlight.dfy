/**
  The cache shared by request threads (backend/dgate/accounts.py, `_cached`): least recently used first
  out, and one computation of a key at a time.

  `Cache` holds the two tables behind the lock; its methods are the critical sections. `State` is the whole
  protocol, every thread at its own point between them, and `Next` one atomic step of one thread.
 */
module SingleFlight {
  import opened Wrappers

  type Key = string
  type Value = int
  type Time = int
  type Thread = nat
  type FlightId = nat

  const CACHE_ENTRIES: nat := 200

  // ------------------------------------------------------------------ the cache itself

  datatype Entry = Entry(key: Key, at: Time, value: Value)

  /** The position of a key, if it is cached. */
  function Find(entries: seq<Entry>, key: Key): (r: Option<nat>)
    ensures r.Some? ==> r.value < |entries| && entries[r.value].key == key
    ensures r.None? ==> forall i :: 0 <= i < |entries| ==> entries[i].key != key
  {
    if entries == [] then None
    else if entries[0].key == key then Some(0)
    else
      var rest := Find(entries[1..], key);
      if rest.Some? then Some(rest.value + 1) else None
  }

  function Without(entries: seq<Entry>, i: nat): seq<Entry>
    requires i < |entries|
  {
    entries[..i] + entries[i + 1..]
  }

  /** `move_to_end`: the entry becomes the most recently used. */
  function Touched(entries: seq<Entry>, i: nat): seq<Entry>
    requires i < |entries|
  {
    Without(entries, i) + [entries[i]]
  }

  /** The newest entry at the end, the oldest ones beyond the limit gone. */
  function Stored(entries: seq<Entry>, e: Entry): seq<Entry> {
    var at := Find(entries, e.key);
    var all := (if at.Some? then Without(entries, at.value) else entries) + [e];
    if |all| > CACHE_ENTRIES then all[|all| - CACHE_ENTRIES..] else all
  }

  predicate Fresh(e: Entry, now: Time, ttl: Time) {
    now - e.at < ttl
  }

  datatype Lookup = Hit(value: Value) | Lead(flight: FlightId) | Follow(flight: FlightId)

  /** A fresh entry is answered and moves to the end; else the key's flight is joined; else the new one leads. */
  ghost predicate EnterGives(entries: seq<Entry>, inflight: map<Key, FlightId>, key: Key, now: Time, ttl: Time, newFlight: FlightId,
                             later: seq<Entry>, marks: map<Key, FlightId>, found: Lookup) {
    var at := Find(entries, key);
    if at.Some? && Fresh(entries[at.value], now, ttl) then
      found == Hit(entries[at.value].value) && later == Touched(entries, at.value) && marks == inflight
    else
      && later == entries
      && (key in inflight ==> found == Follow(inflight[key]) && marks == inflight)
      && (key !in inflight ==> found == Lead(newFlight) && marks == inflight[key := newFlight])
  }

  class Cache {
    var entries: seq<Entry>
    var inflight: map<Key, FlightId>

    constructor ()
      ensures entries == [] && inflight == map[]
    {
      entries, inflight := [], map[];
    }

    /** The first critical section: a fresh entry, or the flight of the key, created when there is none. */
    method Enter(key: Key, now: Time, ttl: Time, newFlight: FlightId) returns (found: Lookup)
      modifies this
      ensures EnterGives(old(entries), old(inflight), key, now, ttl, newFlight, entries, inflight, found)
    {
      var at := Find(entries, key);
      if at.Some? && now - entries[at.value].at < ttl {
        var hit := entries[at.value];
        entries := entries[..at.value] + entries[at.value + 1..];
        entries := entries + [hit];
        return Hit(hit.value);
      }
      if key in inflight {
        return Follow(inflight[key]);
      }
      inflight := inflight[key := newFlight];
      return Lead(newFlight);
    }

    /** The second critical section, after a computation that returned. */
    method Publish(key: Key, at: Time, value: Value)
      modifies this
      ensures entries == Stored(old(entries), Entry(key, at, value)) && inflight == old(inflight) - {key}
    {
      var held := Find(entries, key);
      if held.Some? {
        entries := entries[..held.value] + entries[held.value + 1..];
      }
      entries := entries + [Entry(key, at, value)];
      ghost var all := entries;
      var gone := 0;
      while |entries| > CACHE_ENTRIES
        invariant 0 <= gone <= |all| && entries == all[gone..]
        invariant gone > 0 ==> |entries| >= CACHE_ENTRIES
        invariant inflight == old(inflight)
      {
        entries := entries[1..];
        gone := gone + 1;
      }
      inflight := inflight - {key};
    }

    /** The critical section after a computation that raised. */
    method Clear(key: Key)
      modifies this
      ensures entries == old(entries) && inflight == old(inflight) - {key}
    {
      inflight := inflight - {key};
    }
  }

  // ------------------------------------------------------------------ the protocol

  datatype Answer = Returned(value: Value) | Raised

  /** Where a thread is. A leader goes Leading, Computed or Failed, then Published or Cleared, then Done. */
  datatype Phase =
    | Asked(key: Key, now: Time, ttl: Time)
    | Leading(key: Key, flight: FlightId)
    | Computed(key: Key, flight: FlightId, value: Value)
    | Failed(key: Key, flight: FlightId)
    | Published(key: Key, flight: FlightId, value: Value)
    | Cleared(key: Key, flight: FlightId)
    | Waiting(key: Key, flight: FlightId)
    | Alone(key: Key)
    | Done(key: Key, answer: Answer)

  datatype Flight = Flight(key: Key, leader: Thread, outcome: Option<Answer>)

  /** `uses` tells when each key was last used and `produced` what computations of a key returned; both are
      history, read by no step. */
  datatype State = State(
    entries: seq<Entry>, inflight: map<Key, FlightId>, flights: seq<Flight>, threads: map<Thread, Phase>,
    clock: Time, uses: map<Key, nat>, ticks: nat, produced: set<(Key, Value)>)

  datatype Step =
    | Pass(time: nat)
    | Ask(thread: Thread, key: Key, ttl: Time)
    | Enter(thread: Thread)
    | Finish(thread: Thread, value: Value)
    | Raise(thread: Thread)
    | Publish(thread: Thread)
    | Clear(thread: Thread)
    | Resolve(thread: Thread)
    | Receive(thread: Thread)
    | TimeOut(thread: Thread)

  function Start(): State {
    State([], map[], [], map[], 0, map[], 0, {})
  }

  function Used(s: State, key: Key): State {
    s.(uses := s.uses[key := s.ticks], ticks := s.ticks + 1)
  }

  function Moved(s: State, t: Thread, p: Phase): State {
    s.(threads := s.threads[t := p])
  }

  function Entered(s: State, t: Thread, p: Phase): State
    requires p.Asked?
  {
    var at := Find(s.entries, p.key);
    if at.Some? && Fresh(s.entries[at.value], p.now, p.ttl) then
      var hit := s.entries[at.value];
      Moved(Used(s.(entries := Touched(s.entries, at.value)), p.key), t, Done(p.key, Returned(hit.value)))
    else if p.key in s.inflight then Moved(s, t, Waiting(p.key, s.inflight[p.key]))
    else
      var id := |s.flights|;
      Moved(s.(inflight := s.inflight[p.key := id], flights := s.flights + [Flight(p.key, t, None)]),
            t, Leading(p.key, id))
  }

  function Settled(flights: seq<Flight>, id: FlightId, answer: Answer): seq<Flight> {
    if id < |flights| then flights[id := flights[id].(outcome := Some(answer))] else flights
  }

  /** One atomic step. A step that its thread is not ready for changes nothing. */
  function Next(s: State, step: Step): State {
    if step.Pass? then s.(clock := s.clock + step.time)
    else if step.Ask? then
      if step.thread in s.threads && !s.threads[step.thread].Done? then s
      else Moved(s, step.thread, Asked(step.key, s.clock, step.ttl))
    else if step.thread !in s.threads then s
    else
      var t, p := step.thread, s.threads[step.thread];
      match step
      case Enter(_) => if p.Asked? then Entered(s, t, p) else s
      case Finish(_, value) =>
        if p.Leading? then Moved(s.(produced := s.produced + {(p.key, value)}), t, Computed(p.key, p.flight, value))
        else if p.Alone? then Moved(s.(produced := s.produced + {(p.key, value)}), t, Done(p.key, Returned(value)))
        else s
      case Raise(_) =>
        if p.Leading? then Moved(s, t, Failed(p.key, p.flight))
        else if p.Alone? then Moved(s, t, Done(p.key, Raised))
        else s
      case Publish(_) =>
        if p.Computed? then
          Moved(Used(s.(entries := Stored(s.entries, Entry(p.key, s.clock, p.value)), inflight := s.inflight - {p.key}), p.key),
                t, Published(p.key, p.flight, p.value))
        else s
      case Clear(_) =>
        if p.Failed? then Moved(s.(inflight := s.inflight - {p.key}), t, Cleared(p.key, p.flight)) else s
      case Resolve(_) =>
        if p.Published? then
          Moved(s.(flights := Settled(s.flights, p.flight, Returned(p.value))), t, Done(p.key, Returned(p.value)))
        else if p.Cleared? then Moved(s.(flights := Settled(s.flights, p.flight, Raised)), t, Done(p.key, Raised))
        else s
      case Receive(_) =>
        if p.Waiting? && p.flight < |s.flights| && s.flights[p.flight].outcome.Some?
        then Moved(s, t, Done(p.key, s.flights[p.flight].outcome.value)) else s
      case TimeOut(_) => if p.Waiting? then Moved(s, t, Alone(p.key)) else s
  }

  function Run(s: State, steps: seq<Step>): State
    decreases |steps|
  {
    if steps == [] then s else Run(Next(s, steps[0]), steps[1..])
  }

  /** What a thread was told on entering, read off the point it is at. */
  function FoundBy(p: Phase): Lookup
    requires (p.Done? && p.answer.Returned?) || p.Waiting? || p.Leading?
  {
    match p
    case Done(_, answer) => Hit(answer.value)
    case Waiting(_, flight) => Follow(flight)
    case Leading(_, flight) => Lead(flight)
  }

  /** The protocol touches the two tables as the cache's methods do: a thread that enters, publishes or clears gets and
      leaves what they promise, and no other step touches them. */
  lemma StepsAreTheCaches(s: State, step: Step)
    ensures var next := Next(s, step);
            && (step.Enter? && step.thread in s.threads && s.threads[step.thread].Asked? ==>
                  var p, q := s.threads[step.thread], next.threads[step.thread];
                  && ((q.Done? && q.answer.Returned?) || q.Waiting? || q.Leading?)
                  && EnterGives(s.entries, s.inflight, p.key, p.now, p.ttl, |s.flights|, next.entries, next.inflight, FoundBy(q)))
            && (step.Publish? && step.thread in s.threads && s.threads[step.thread].Computed? ==>
                  var p := s.threads[step.thread];
                  && next.entries == Stored(s.entries, Entry(p.key, s.clock, p.value))
                  && next.inflight == s.inflight - {p.key})
            && (step.Clear? && step.thread in s.threads && s.threads[step.thread].Failed? ==>
                  next.entries == s.entries && next.inflight == s.inflight - {s.threads[step.thread].key})
            && (!step.Enter? && !step.Publish? && !step.Clear? ==>
                  next.entries == s.entries && next.inflight == s.inflight)
  {
  }

  // ------------------------------------------------------------------ what every run keeps

  /** A thread's hold on a flight: its mark is up while it computes, and down while it resolves it. */
  datatype Grip = Loose | Marked(key: Key, flight: FlightId) | Unmarked(key: Key, flight: FlightId)

  function GripOf(threads: map<Thread, Phase>, t: Thread): Grip {
    if t !in threads then Loose
    else
      match threads[t]
      case Leading(k, f) => Marked(k, f)
      case Computed(k, f, _) => Marked(k, f)
      case Failed(k, f) => Marked(k, f)
      case Published(k, f, _) => Unmarked(k, f)
      case Cleared(k, f) => Unmarked(k, f)
      case _ => Loose
  }

  /** From the least to the most recently used. */
  ghost predicate ByUse(entries: seq<Entry>, uses: map<Key, nat>) {
    && (forall i :: 0 <= i < |entries| ==> entries[i].key in uses)
    && (forall i, j :: 0 <= i < j < |entries| ==> uses[entries[i].key] < uses[entries[j].key])
  }

  ghost predicate CacheOrdered(s: State) {
    && |s.entries| <= CACHE_ENTRIES
    && ByUse(s.entries, s.uses)
    && (forall k :: k in s.uses ==> s.uses[k] < s.ticks)
  }

  /** Marks and unresolved flights are in their leaders' hands, and a leader's flight is its own. */
  ghost predicate FlightsOwned(inflight: map<Key, FlightId>, flights: seq<Flight>, threads: map<Thread, Phase>) {
    && (forall t :: GripOf(threads, t) != Loose ==> Owns(flights, t, GripOf(threads, t)))
    && (forall t :: GripOf(threads, t).Marked? ==>
          GripOf(threads, t).key in inflight && inflight[GripOf(threads, t).key] == GripOf(threads, t).flight)
    && (forall k :: k in inflight ==>
          inflight[k] < |flights| && GripOf(threads, flights[inflight[k]].leader) == Marked(k, inflight[k]))
    && (forall f :: 0 <= f < |flights| && flights[f].outcome.None? ==>
          GripOf(threads, flights[f].leader) != Loose && GripOf(threads, flights[f].leader).flight == f)
  }

  predicate Owns(flights: seq<Flight>, t: Thread, g: Grip)
    requires g != Loose
  {
    g.flight < |flights| && flights[g.flight] == Flight(g.key, t, None)
  }

  /** Every value held or answered for a key is one a computation of that key returned. */
  ghost predicate Genuine(s: State) {
    && (forall i :: 0 <= i < |s.entries| ==> (s.entries[i].key, s.entries[i].value) in s.produced)
    && OutcomesGenuine(s.flights, s.produced)
    && (forall t :: t in s.threads ==> PhaseGenuine(s, s.threads[t]))
  }

  ghost predicate OutcomesGenuine(flights: seq<Flight>, produced: set<(Key, Value)>) {
    forall f :: 0 <= f < |flights| && flights[f].outcome.Some? && flights[f].outcome.value.Returned? ==>
      (flights[f].key, flights[f].outcome.value.value) in produced
  }

  predicate PhaseGenuine(s: State, p: Phase) {
    match p
    case Computed(k, _, v) => (k, v) in s.produced
    case Published(k, _, v) => (k, v) in s.produced
    case Waiting(k, f) => f < |s.flights| && s.flights[f].key == k
    case Done(k, Returned(v)) => (k, v) in s.produced
    case _ => true
  }

  ghost predicate Sound(s: State) {
    CacheOrdered(s) && FlightsOwned(s.inflight, s.flights, s.threads) && Genuine(s)
  }
}
