/**
  What the limits guarantee over every sequential run, in any hour and not only in hours that end at a
  check.
 */
module ThrottleRuns {
  import opened Wrappers
  import opened Throttle

  // ------------------------------------------------------------------ runs

  datatype Action =
    | Mail(address: string, client: string)
    | Attempt(address: string, client: string, session: bool, result: Result)
    | Clear(owner: string, on: Option<string>)
    | Prune

  /** What becomes of an attempt the gate lets through. */
  datatype Result = Failed(code: bool) | Passed | SignedIn

  datatype Step = Step(action: Action, now: Time)

  /** The table, and every row ever counted and not cleared by a sign-in, pruned or not. */
  datatype State = State(rows: seq<Row>, history: seq<Row>)

  function Added(s: State, more: seq<Row>): State {
    State(s.rows + more, s.history + more)
  }

  function ClearedState(s: State, address: string, client: Option<string>): State {
    State(Cleared(s.rows, address, client), Cleared(s.history, address, client))
  }

  function Next(s: State, step: Step): State {
    match step.action
    case Mail(a, c) =>
      if MailRefusal(s.rows, a, c, step.now).Some? then s else Added(s, Counted(MailCounters(a, c), step.now))
    case Attempt(a, c, session, result) =>
      if !GateOpen(s.rows, a, c, session, step.now) || result.Passed? then s
      else if result.SignedIn? then ClearedState(s, a, Some(c))
      else Added(s, Counted(FailureCounters(a, c, result.code), step.now))
    case Clear(a, c) => ClearedState(s, a, c)
    case Prune => s.(rows := Pruned(s.rows, step.now))
  }

  function Run(s: State, steps: seq<Step>): State
    decreases |steps|
  {
    if steps == [] then s else Run(Next(s, steps[0]), steps[1..])
  }

  ghost predicate Clocked(from: Time, steps: seq<Step>) {
    && (forall i :: 0 <= i < |steps| ==> from <= steps[i].now)
    && (forall i, j :: 0 <= i < j < |steps| ==> steps[i].now <= steps[j].now)
  }

  // ------------------------------------------------------------------ times of one counter

  function TimesOf(rows: seq<Row>, c: Counter): seq<Time> {
    if rows == [] then []
    else
      var last, rest := rows[|rows| - 1], TimesOf(rows[..|rows| - 1], c);
      if last.counter == c then rest + [last.at] else rest
  }

  ghost predicate Sorted(times: seq<Time>) {
    forall i, j :: 0 <= i < j < |times| ==> times[i] <= times[j]
  }

  /** Any `cap + 1` of the times in a row span at least an hour. */
  ghost predicate Spaced(times: seq<Time>, cap: nat) {
    forall i :: 0 <= i < |times| - cap ==> times[i + cap] - times[i] >= HOUR
  }

  function CountAfter(times: seq<Time>, cut: Time): nat {
    if times == [] then 0
    else CountAfter(times[..|times| - 1], cut) + if times[|times| - 1] > cut then 1 else 0
  }

  /** The times within the hour that starts at `start`. */
  function InHourFrom(times: seq<Time>, start: Time): set<nat> {
    set i | 0 <= i < |times| && start <= times[i] < start + HOUR
  }

  /** Spacing is what bounds every hour, wherever it starts. */
  lemma SpacedMeans(times: seq<Time>, cap: nat, start: Time)
    requires Sorted(times) && Spaced(times, cap)
    ensures |InHourFrom(times, start)| <= cap
  {
    var inside := InHourFrom(times, start);
    if inside != {} {
      var first := Least(inside);
      var span := Range(first, first + cap);
      forall i | i in inside ensures i in span {
        if i >= first + cap {
          PastTheSpan(times, cap, first, i);
        }
      }
      SubsetSize(inside, span);
    }
  }

  lemma PastTheSpan(times: seq<Time>, cap: nat, first: nat, i: nat)
    requires Sorted(times) && Spaced(times, cap) && first + cap <= i < |times|
    ensures times[i] - times[first] >= HOUR
  {
    assert times[first + cap] - times[first] >= HOUR;
  }

  function Range(lo: nat, hi: nat): (r: set<nat>)
    requires lo <= hi
    ensures |r| == hi - lo && forall i: nat :: i in r <==> lo <= i < hi
    decreases hi - lo
  {
    if lo == hi then {} else {lo} + Range(lo + 1, hi)
  }

  lemma {:induction false} Least(s: set<nat>) returns (m: nat)
    requires s != {}
    ensures m in s && forall i :: i in s ==> m <= i
    decreases |s|
  {
    var x :| x in s;
    var rest := s - {x};
    if rest == {} {
      m := x;
      assert forall i: nat :: i in s ==> i == x || i in rest;
    } else {
      m := Least(rest);
      if x < m {
        m := x;
      }
      assert forall i: nat :: i in s ==> i == x || i in rest;
    }
  }

  lemma {:induction false} FewAfterMeansEarly(times: seq<Time>, cut: Time, n: nat)
    requires Sorted(times) && CountAfter(times, cut) < n <= |times|
    ensures times[|times| - n] <= cut
    decreases |times|
  {
    var last := |times| - 1;
    if times[last] > cut {
      FewAfterMeansEarly(times[..last], cut, n - 1);
    }
  }

  lemma {:induction false} ManyAfter(times: seq<Time>, cut: Time, i: nat)
    requires Sorted(times) && i <= |times| && (i < |times| ==> times[i] > cut)
    ensures CountAfter(times, cut) >= |times| - i
    decreases |times|
  {
    if i < |times| {
      ManyAfter(times[..|times| - 1], cut, i);
    }
  }

  /** Accepting a time while fewer than `cap` lie within the hour before it keeps the spacing. */
  lemma AcceptedKeepsSpacing(times: seq<Time>, cap: nat, now: Time)
    requires Sorted(times) && Spaced(times, cap) && cap > 0
    requires forall i :: 0 <= i < |times| ==> times[i] <= now
    requires CountAfter(times, now - HOUR) < cap
    ensures Sorted(times + [now]) && Spaced(times + [now], cap)
  {
    if |times| >= cap {
      FewAfterMeansEarly(times, now - HOUR, cap);
    }
  }

  // ------------------------------------------------------------------ the table and the history

  lemma {:induction false} RecentIsCount(rows: seq<Row>, c: Counter, now: Time)
    ensures Recent(rows, c, now) == CountAfter(TimesOf(rows, c), now - HOUR)
  {
    if rows != [] {
      var n := |rows| - 1;
      RecentIsCount(rows[..n], c, now);
      var rest := TimesOf(rows[..n], c);
      assert (rest + [rows[n].at])[..|rest|] == rest;
    }
  }

  lemma {:induction false} TimesAreRows(rows: seq<Row>, c: Counter)
    ensures forall i :: 0 <= i < |TimesOf(rows, c)| ==> Row(c, TimesOf(rows, c)[i]) in rows
  {
    if rows != [] {
      TimesAreRows(rows[..|rows| - 1], c);
    }
  }

  /** Rows are in order of time. */
  ghost predicate InOrder(rows: seq<Row>) {
    forall i, j :: 0 <= i < j < |rows| ==> rows[i].at <= rows[j].at
  }

  lemma {:induction false} TimesAreSorted(rows: seq<Row>, c: Counter)
    requires InOrder(rows)
    ensures Sorted(TimesOf(rows, c))
  {
    if rows != [] {
      var n := |rows| - 1;
      TimesAreSorted(rows[..n], c);
      TimesAreRows(rows[..n], c);
    }
  }

  lemma {:induction false} NewestIsLast(rows: seq<Row>, c: Counter, now: Time)
    requires InOrder(rows)
    ensures var times := TimesOf(rows, c);
            Newest(rows, c, now)
            == if times != [] && times[|times| - 1] > now - HOUR then Some(times[|times| - 1]) else None
  {
    if rows != [] {
      NewestIsLast(rows[..|rows| - 1], c, now);
      TimesAreRows(rows[..|rows| - 1], c);
    }
  }

  /** Both say the same of the last hour, now and later. */
  ghost predicate Agree(rows: seq<Row>, history: seq<Row>, now: Time) {
    forall c, t :: t >= now ==> AgreeOn(rows, history, c, t)
  }

  lemma {:induction false} AppendAgrees(rows: seq<Row>, history: seq<Row>, more: seq<Row>, c: Counter, t: Time)
    requires AgreeOn(rows, history, c, t)
    ensures AgreeOn(rows + more, history + more, c, t)
    decreases |more|
  {
    if more == [] {
      assert rows + more == rows && history + more == history;
    } else {
      var n := |more| - 1;
      AppendAgrees(rows, history, more[..n], c, t);
      assert (rows + more)[..|rows + more| - 1] == rows + more[..n];
      assert (history + more)[..|history + more| - 1] == history + more[..n];
    }
  }

  lemma {:induction false} PruneAgrees(rows: seq<Row>, now: Time, c: Counter, t: Time)
    requires now <= t
    ensures AgreeOn(Pruned(rows, now), rows, c, t)
  {
    if rows != [] {
      var n := |rows| - 1;
      PruneAgrees(rows[..n], now, c, t);
      var rest := Pruned(rows[..n], now);
      assert (rest + [rows[n]])[..|rest|] == rest;
    }
  }

  lemma {:induction false} ClearCounts(rows: seq<Row>, address: string, client: Option<string>, c: Counter, t: Time)
    ensures var rest := Cleared(rows, address, client);
            if ClearedBy(c, address, client) then AgreeOn(rest, [], c, t) else AgreeOn(rest, rows, c, t)
    ensures TimesOf(Cleared(rows, address, client), c) == if ClearedBy(c, address, client) then [] else TimesOf(rows, c)
  {
    ClearedReads(rows, address, client, c, t);
    if rows != [] {
      ClearCounts(rows[..|rows| - 1], address, client, c, t);
    }
  }

  lemma {:induction false} ClearIsInOrder(rows: seq<Row>, address: string, client: Option<string>)
    requires InOrder(rows)
    ensures InOrder(Cleared(rows, address, client))
    ensures forall r :: r in Cleared(rows, address, client) ==> r in rows
  {
    if rows != [] {
      var n := |rows| - 1;
      ClearIsInOrder(rows[..n], address, client);
      forall r | r in rows[..n] ensures r.at <= rows[n].at {
      }
    }
  }

  lemma {:induction false} TimesOfMore(rows: seq<Row>, more: seq<Row>, c: Counter)
    ensures TimesOf(rows + more, c) == TimesOf(rows, c) + TimesOf(more, c)
    decreases |more|
  {
    if more == [] {
      assert rows + more == rows;
    } else {
      var n := |more| - 1;
      TimesOfMore(rows, more[..n], c);
      assert (rows + more)[..|rows + more| - 1] == rows + more[..n];
    }
  }

  // ------------------------------------------------------------------ failed sign-ins

  /** Each time came after the wait that the gate asks for, given its predecessors of the hour. */
  ghost predicate Waited(times: seq<Time>, g: Gate) {
    forall i :: 0 < i < |times| ==> WaitedAt(times, i, g)
  }

  ghost predicate WaitedAt(times: seq<Time>, i: nat, g: Gate)
    requires 0 < i < |times|
  {
    HasWaited(CountAfter(times[..i], times[i] - HOUR), times[i] - times[i - 1], g)
  }

  /** The time since the last of `n` failures is all that the gate asks for. */
  predicate HasWaited(n: nat, since: Time, g: Gate) {
    n >= g.free ==> FullWait(n, g.free, g.cap) as real <= since
  }

  lemma Doubles(free: nat)
    ensures FullWait(free, free, 3600) == 30 && FullWait(free + 1, free, 3600) == 60 && FullWait(free + 2, free, 3600) == 120
    ensures FullWait(free + 3, free, 3600) == 240 && FullWait(free + 4, free, 3600) == 480
    ensures FullWait(free + 5, free, 3600) == 960 && FullWait(free + 6, free, 3600) == 1920
  {
    assert Pow2(1) == 2 && Pow2(2) == 4 && Pow2(3) == 8 && Pow2(4) == 16 && Pow2(5) == 32 && Pow2(6) == 64;
  }

  lemma {:induction false} Pow2Grows(m: nat, n: nat)
    requires m <= n
    ensures 1 <= Pow2(m) <= Pow2(n)
    decreases n - m
  {
    if m < n {
      Pow2Grows(m, n - 1);
    }
  }

  lemma WaitGrows(m: nat, n: nat, g: Gate)
    requires g.free <= m <= n
    ensures FullWait(m, g.free, g.cap) <= FullWait(n, g.free, g.cap)
  {
    Pow2Grows(if m - g.free < 12 then m - g.free else 12, if n - g.free < 12 then n - g.free else 12);
  }

  /** The wait before the `k`th failure of an hour, when the first of the hour is at `i`. */
  lemma GapInHour(times: seq<Time>, g: Gate, i: nat, k: nat)
    requires Sorted(times) && Waited(times, g) && 0 < k && g.free <= k && i + k < |times|
    requires times[i + k] - times[i] < HOUR
    ensures FullWait(k, g.free, g.cap) as real <= times[i + k] - times[i + k - 1]
  {
    var before := times[..i + k];
    assert WaitedAt(times, i + k, g);
    ManyAfter(before, times[i + k] - HOUR, i);
    WaitGrows(k, CountAfter(before, times[i + k] - HOUR), g);
  }

  /** With waits that double up to an hour, seven failures more than are free never fall within one: the waits before
      those seven alone add up to 3,810 seconds. */
  lemma WaitedMeansSpaced(times: seq<Time>, g: Gate)
    requires Sorted(times) && Waited(times, g) && g.free > 0 && g.cap == 3600
    ensures Spaced(times, g.free + 6)
  {
    forall i | 0 <= i < |times| - (g.free + 6) ensures times[i + g.free + 6] - times[i] >= HOUR {
      SevenGaps(times, g, i);
    }
  }

  lemma SevenGaps(times: seq<Time>, g: Gate, i: nat)
    requires Sorted(times) && Waited(times, g) && g.free > 0 && g.cap == 3600 && i + g.free + 6 < |times|
    ensures times[i + g.free + 6] - times[i] >= HOUR
  {
    if times[i + g.free + 6] - times[i] < HOUR {
      FirstGaps(times, g, i);
      Doubles(g.free);
      GapInHour(times, g, i, g.free + 4);
      GapInHour(times, g, i, g.free + 5);
      GapInHour(times, g, i, g.free + 6);
    }
  }

  lemma FirstGaps(times: seq<Time>, g: Gate, i: nat)
    requires Sorted(times) && Waited(times, g) && g.free > 0 && g.cap == 3600
    requires i + g.free + 3 < |times| && times[i + g.free + 3] - times[i] < HOUR
    ensures times[i + g.free + 3] - times[i + g.free - 1] >= 450.0
  {
    Doubles(g.free);
    GapInHour(times, g, i, g.free);
    GapInHour(times, g, i, g.free + 1);
    GapInHour(times, g, i, g.free + 2);
    GapInHour(times, g, i, g.free + 3);
  }

  lemma AMinuteAtMost(n: nat, free: nat)
    requires n >= free
    ensures FullWait(n, free, 60) == if n == free then 30 else 60
  {
    Pow2Grows(if n == free then 0 else 1, if n - free < 12 then n - free else 12);
  }

  lemma {:induction false} MinuteGaps(times: seq<Time>, g: Gate, i: nat, j: nat)
    requires Sorted(times) && Waited(times, g) && g.free > 0 && g.cap == 60
    requires i + g.free + j < |times| && times[i + g.free + j] - times[i] < HOUR
    ensures times[i + g.free + j] - times[i + g.free - 1] >= 30.0 + 60.0 * (j as real)
  {
    GapInHour(times, g, i, g.free + j);
    AMinuteAtMost(g.free + j, g.free);
    if j > 0 {
      MinuteGaps(times, g, i, j - 1);
    }
  }

  /** With waits of a minute at most, sixty failures more than are free is all an hour holds. */
  lemma MinutesMeanSpaced(times: seq<Time>, g: Gate)
    requires Sorted(times) && Waited(times, g) && g.free > 0 && g.cap == 60
    ensures Spaced(times, g.free + 60)
  {
    forall i | 0 <= i < |times| - (g.free + 60) ensures times[i + g.free + 60] - times[i] >= HOUR {
      if times[i + g.free + 60] - times[i] < HOUR {
        MinuteGaps(times, g, i, 60);
      }
    }
  }

  lemma WaitedMore(times: seq<Time>, g: Gate, now: Time)
    requires Sorted(times) && Waited(times, g)
    requires forall i :: 0 <= i < |times| ==> times[i] <= now
    requires times != [] ==> HasWaited(CountAfter(times, now - HOUR), now - times[|times| - 1], g)
    ensures Sorted(times + [now]) && Waited(times + [now], g)
  {
    forall i | 0 < i < |times| + 1 ensures WaitedAt(times + [now], i, g) {
      if i < |times| {
        EarlierWaits(times, g, now, i);
      } else {
        LastWaits(times, g, now);
      }
    }
  }

  lemma EarlierWaits(times: seq<Time>, g: Gate, now: Time, i: nat)
    requires 0 < i < |times| && WaitedAt(times, i, g)
    ensures WaitedAt(times + [now], i, g)
  {
    assert (times + [now])[..i] == times[..i];
  }

  lemma LastWaits(times: seq<Time>, g: Gate, now: Time)
    requires times != [] && HasWaited(CountAfter(times, now - HOUR), now - times[|times| - 1], g)
    ensures WaitedAt(times + [now], |times|, g)
  {
    assert (times + [now])[..|times|] == times;
  }

  // ------------------------------------------------------------------ the invariant of every run

  function CapOf(c: Counter): nat {
    match c
    case MailAddress(_) => LIMIT_PER_ADDRESS
    case MailPair(_, _) => LIMIT_PER_ADDRESS_PER_IP
    case MailClient(_) => LIMIT_PER_IP
    case MailAll => LIMIT_GLOBAL
    case _ => 0
  }

  predicate IsMail(c: Counter) {
    c.MailAddress? || c.MailPair? || c.MailClient? || c.MailAll?
  }

  /** The gate that stands before a counter of failed sign-ins. */
  function GateOf(c: Counter): Gate
    requires !IsMail(c)
  {
    match c
    case LoginPair(_, _) => Gate(c, LOGIN_FREE, LOGIN_CAP)
    case LoginCode(_) => Gate(c, LOGIN_FREE, LOGIN_CAP)
    case LoginAddress(_) => Gate(c, LOGIN_FREE_ADDR, LOGIN_ADDR_DELAY_MAX)
    case LoginClient(_) => Gate(c, LOGIN_FREE_IP, LOGIN_CAP)
  }

  /** The times of a mail counter are spaced by its cap, those of failed sign-ins by the waits of their gate. */
  ghost predicate Kept(history: seq<Row>, c: Counter) {
    if IsMail(c) then Spaced(TimesOf(history, c), CapOf(c)) else Waited(TimesOf(history, c), GateOf(c))
  }

  /** A signed-in session that states a wrong password counts under the address and the client, and a wrong code under
      the address, though it has met the gate of its pair only. */
  predicate PassesBy(step: Step, c: Counter) {
    && step.action.Attempt? && step.action.session && step.action.result.Failed?
    && c in FailureCounters(step.action.address, step.action.client, step.action.result.code) && !c.LoginPair?
  }

  ghost predicate Sound(s: State, now: Time) {
    && InOrder(s.history)
    && (forall r :: r in s.history ==> r.at <= now)
    && Agree(s.rows, s.history, now)
  }

  lemma AddedIsSound(s: State, counters: seq<Counter>, now: Time)
    requires Sound(s, now)
    ensures Sound(Added(s, Counted(counters, now)), now)
  {
    var more := Counted(counters, now);
    var next := Added(s, more);
    forall i, j | 0 <= i < j < |next.history| ensures next.history[i].at <= next.history[j].at {
      if i < |s.history| {
        assert s.history[i] in s.history;
      }
    }
    forall c, t | t >= now ensures AgreeOn(next.rows, next.history, c, t) {
      assert AgreeOn(s.rows, s.history, c, t);
      AppendAgrees(s.rows, s.history, more, c, t);
    }
  }

  /** What the checks say of a counter that is about to be counted. */
  ghost predicate Admits(rows: seq<Row>, c: Counter, now: Time) {
    if IsMail(c) then Recent(rows, c, now) < CapOf(c) else GateWait(rows, GateOf(c), now) == 0
  }

  /** A counter that is counted once, and admitted if so, is kept. */
  lemma AddedKeeps(s: State, counters: seq<Counter>, c: Counter, now: Time)
    requires Sound(s, now) && Kept(s.history, c)
    requires forall i, j :: 0 <= i < j < |counters| ==> counters[i] != counters[j]
    requires c in counters ==> Admits(s.rows, c, now)
    ensures Kept(Added(s, Counted(counters, now)).history, c)
  {
    TimesOfMore(s.history, Counted(counters, now), c);
    CountedOnceEach(counters, now, c);
    if c in counters {
      if IsMail(c) {
        CountedMail(s, c, now);
      } else {
        CountedFailure(s, c, now);
      }
    } else {
      assert TimesOf(s.history, c) + [] == TimesOf(s.history, c);
    }
  }

  lemma ReadsHistory(s: State, c: Counter, now: Time)
    requires Sound(s, now)
    ensures var times := TimesOf(s.history, c);
            && Sorted(times) && (forall i :: 0 <= i < |times| ==> times[i] <= now)
            && Recent(s.rows, c, now) == CountAfter(times, now - HOUR)
            && Newest(s.rows, c, now)
               == if times != [] && times[|times| - 1] > now - HOUR then Some(times[|times| - 1]) else None
  {
    assert AgreeOn(s.rows, s.history, c, now);
    TimesAreSorted(s.history, c);
    TimesAreRows(s.history, c);
    RecentIsCount(s.history, c, now);
    NewestIsLast(s.history, c, now);
  }

  lemma CountedMail(s: State, c: Counter, now: Time)
    requires Sound(s, now) && IsMail(c) && Kept(s.history, c) && Admits(s.rows, c, now)
    ensures Spaced(TimesOf(s.history, c) + [now], CapOf(c))
  {
    ReadsHistory(s, c, now);
    AcceptedKeepsSpacing(TimesOf(s.history, c), CapOf(c), now);
  }

  lemma CountedFailure(s: State, c: Counter, now: Time)
    requires Sound(s, now) && !IsMail(c) && Kept(s.history, c) && Admits(s.rows, c, now)
    ensures Waited(TimesOf(s.history, c) + [now], GateOf(c))
  {
    var times := TimesOf(s.history, c);
    ReadsHistory(s, c, now);
    if times != [] && CountAfter(times, now - HOUR) > 0 {
      FewAfterOrLast(times, now - HOUR);
    }
    WaitedMore(times, GateOf(c), now);
  }

  lemma FewAfterOrLast(times: seq<Time>, cut: Time)
    requires Sorted(times) && times != [] && CountAfter(times, cut) > 0
    ensures times[|times| - 1] > cut
  {
  }

  lemma {:induction false} NoneAfter(times: seq<Time>, cut: Time)
    requires forall i :: 0 <= i < |times| ==> times[i] <= cut
    ensures CountAfter(times, cut) == 0
    decreases |times|
  {
    if times != [] {
      NoneAfter(times[..|times| - 1], cut);
    }
  }

  lemma ClearedIsSound(s: State, address: string, client: Option<string>, now: Time)
    requires Sound(s, now)
    ensures Sound(ClearedState(s, address, client), now)
  {
    var next := ClearedState(s, address, client);
    ClearIsInOrder(s.history, address, client);
    forall c, t | t >= now ensures AgreeOn(next.rows, next.history, c, t) {
      assert AgreeOn(s.rows, s.history, c, t);
      ClearedReads(s.rows, address, client, c, t);
      ClearedReads(s.history, address, client, c, t);
    }
  }

  lemma {:induction false} CountedOnceEach(counters: seq<Counter>, now: Time, c: Counter)
    requires forall i, j :: 0 <= i < j < |counters| ==> counters[i] != counters[j]
    ensures TimesOf(Counted(counters, now), c) == if c in counters then [now] else []
    decreases |counters|
  {
    if counters != [] {
      var n := |counters| - 1;
      CountedOnceEach(counters[..n], now, c);
      assert Counted(counters, now)[..n] == Counted(counters[..n], now);
      assert counters == counters[..n] + [counters[n]];
    }
  }

  lemma PrunedIsSound(s: State, now: Time)
    requires Sound(s, now)
    ensures Sound(s.(rows := Pruned(s.rows, now)), now)
  {
    forall c, t | t >= now ensures AgreeOn(Pruned(s.rows, now), s.history, c, t) {
      assert AgreeOn(s.rows, s.history, c, t);
      PruneAgrees(s.rows, now, c, t);
    }
  }

  lemma StepIsSound(s: State, step: Step, from: Time)
    requires Sound(s, from) && from <= step.now
    ensures Sound(s, step.now) && Sound(Next(s, step), step.now)
  {
    var now := step.now;
    assert Sound(s, now) by {
      forall c, t | t >= now ensures AgreeOn(s.rows, s.history, c, t) {
      }
    }
    match step.action
    case Mail(a, c) => AddedIsSound(s, MailCounters(a, c), now);
    case Attempt(a, c, _, result) =>
      if result.Failed? {
        AddedIsSound(s, FailureCounters(a, c, result.code), now);
      } else {
        ClearedIsSound(s, a, Some(c), now);
      }
    case Clear(a, c) => ClearedIsSound(s, a, c, now);
    case Prune => PrunedIsSound(s, now);
  }

  lemma MailKeeps(s: State, address: string, client: string, c: Counter, now: Time)
    requires Sound(s, now) && Kept(s.history, c) && MailRefusal(s.rows, address, client, now).None?
    ensures Kept(Added(s, Counted(MailCounters(address, client), now)).history, c)
  {
    AddedKeeps(s, MailCounters(address, client), c, now);
  }

  /** The gates an attempt has met are those of the counters its failure raises, but for a session's. */
  lemma GatesMet(s: State, step: Step, c: Counter)
    requires step.action.Attempt? && step.action.result.Failed? && !PassesBy(step, c)
    requires GateOpen(s.rows, step.action.address, step.action.client, step.action.session, step.now)
    requires c in FailureCounters(step.action.address, step.action.client, step.action.result.code)
    ensures Admits(s.rows, c, step.now)
  {
    var gates := Gates(step.action.address, step.action.client, step.action.session);
    assert GateWait(s.rows, gates[0], step.now) == 0;
    if !step.action.session {
      assert GateWait(s.rows, gates[1], step.now) == 0 && GateWait(s.rows, gates[2], step.now) == 0
             && GateWait(s.rows, gates[3], step.now) == 0;
    }
  }

  lemma FailureKeeps(s: State, step: Step, c: Counter)
    requires Sound(s, step.now) && Kept(s.history, c) && !PassesBy(step, c)
    requires step.action.Attempt? && step.action.result.Failed?
    requires GateOpen(s.rows, step.action.address, step.action.client, step.action.session, step.now)
    ensures Kept(Next(s, step).history, c)
  {
    var counters := FailureCounters(step.action.address, step.action.client, step.action.result.code);
    if c in counters {
      GatesMet(s, step, c);
    }
    AddedKeeps(s, counters, c, step.now);
  }

  lemma ClearedKeeps(s: State, address: string, client: Option<string>, c: Counter)
    requires Kept(s.history, c)
    ensures Kept(ClearedState(s, address, client).history, c)
  {
    ClearCounts(s.history, address, client, c, 0.0);
  }

  lemma StepKeeps(s: State, step: Step, c: Counter)
    requires Sound(s, step.now) && Kept(s.history, c) && !PassesBy(step, c)
    ensures Kept(Next(s, step).history, c)
  {
    match step.action
    case Mail(address, client) =>
      if MailRefusal(s.rows, address, client, step.now).None? {
        MailKeeps(s, address, client, c, step.now);
      }
    case Attempt(address, client, session, result) =>
      if GateOpen(s.rows, address, client, session, step.now) {
        if result.Failed? {
          FailureKeeps(s, step, c);
        } else if result.SignedIn? {
          ClearedKeeps(s, address, Some(client), c);
        }
      }
    case Clear(address, client) => ClearedKeeps(s, address, client, c);
    case Prune =>
  }

  lemma {:induction false} RunKeeps(s: State, steps: seq<Step>, from: Time, to: Time, c: Counter)
    requires Sound(s, from) && Clocked(from, steps) && Kept(s.history, c)
    requires from <= to && forall i :: 0 <= i < |steps| ==> steps[i].now <= to && !PassesBy(steps[i], c)
    ensures Sound(Run(s, steps), to) && Kept(Run(s, steps).history, c)
    decreases |steps|
  {
    if steps == [] {
      forall x, t | t >= to ensures AgreeOn(s.rows, s.history, x, t) {
      }
    } else {
      StepIsSound(s, steps[0], from);
      StepKeeps(s, steps[0], c);
      RunKeeps(Next(s, steps[0]), steps[1..], steps[0].now, to, c);
    }
  }

  lemma {:induction false} LastNow(from: Time, steps: seq<Step>) returns (to: Time)
    requires Clocked(from, steps)
    ensures from <= to && forall i :: 0 <= i < |steps| ==> steps[i].now <= to
  {
    to := if steps == [] then from else steps[|steps| - 1].now;
  }

  function Start(): State {
    State([], [])
  }

  /** What holds of a counter at the end of every run that does not pass its gate by. */
  lemma EveryRunKeeps(steps: seq<Step>, from: Time, c: Counter)
    requires Clocked(from, steps) && forall i :: 0 <= i < |steps| ==> !PassesBy(steps[i], c)
    ensures var history := Run(Start(), steps).history;
            Sorted(TimesOf(history, c)) && Kept(history, c)
  {
    var to := LastNow(from, steps);
    RunKeeps(Start(), steps, from, to, c);
    TimesAreSorted(Run(Start(), steps).history, c);
  }

  /** Over every run and in every hour, wherever it starts: at most 5 accepted mails an address, 3 an address
      and client, 20 a client and 120 in all. */
  lemma MailLimits(steps: seq<Step>, from: Time, c: Counter, start: Time)
    requires Clocked(from, steps) && IsMail(c)
    ensures CapOf(c) == if c.MailAddress? then 5 else if c.MailPair? then 3 else if c.MailClient? then 20 else 120
    ensures |InHourFrom(TimesOf(Run(Start(), steps).history, c), start)| <= CapOf(c)
  {
    EveryRunKeeps(steps, from, c);
    SpacedMeans(TimesOf(Run(Start(), steps).history, c), CapOf(c), start);
  }

  /** The most failures an hour can hold behind a gate. */
  function BoundOf(c: Counter): nat
    requires !IsMail(c)
  {
    GateOf(c).free + (if c.LoginAddress? then 60 else 6)
  }

  lemma GateSpaces(times: seq<Time>, c: Counter)
    requires !IsMail(c) && Sorted(times) && Waited(times, GateOf(c))
    ensures Spaced(times, BoundOf(c))
  {
    if c.LoginAddress? {
      MinutesMeanSpaced(times, GateOf(c));
    } else {
      WaitedMeansSpaced(times, GateOf(c));
    }
  }

  /** Over every run and in every hour, of the failures not cleared by a sign-in: 11 of an address and client, 11 wrong
      codes of an address, 80 of an address and 36 of a client, the last three where no signed-in session adds to them
      past their gate. */
  lemma FailureLimits(steps: seq<Step>, from: Time, c: Counter, start: Time)
    requires Clocked(from, steps) && !IsMail(c) && forall i :: 0 <= i < |steps| ==> !PassesBy(steps[i], c)
    ensures BoundOf(c) == if c.LoginPair? || c.LoginCode? then 11 else if c.LoginAddress? then 80 else 36
    ensures |InHourFrom(TimesOf(Run(Start(), steps).history, c), start)| <= BoundOf(c)
  {
    EveryRunKeeps(steps, from, c);
    var times := TimesOf(Run(Start(), steps).history, c);
    GateSpaces(times, c);
    SpacedMeans(times, BoundOf(c), start);
  }

  /** Over every run and in every hour, at most 11 failures of one address and client since they last signed
      in: the lockout that twelve failures would bring is never reached. */
  lemma SignInLimit(steps: seq<Step>, from: Time, address: string, client: string, start: Time)
    requires Clocked(from, steps)
    ensures |InHourFrom(TimesOf(Run(Start(), steps).history, LoginPair(address, client)), start)| <= 11
  {
    FailureLimits(steps, from, LoginPair(address, client), start);
  }

  /** The wait of a whole hour is never asked of a pair, at any moment of any run. */
  lemma WholeHourNeverAsked(steps: seq<Step>, from: Time, address: string, client: string, now: Time)
    requires Clocked(from, steps) && from <= now && forall i :: 0 <= i < |steps| ==> steps[i].now <= now
    ensures Recent(Run(Start(), steps).rows, LoginPair(address, client), now) <= 11
  {
    var c := LoginPair(address, client);
    RunKeeps(Start(), steps, from, now, c);
    var s := Run(Start(), steps);
    ReadsHistory(s, c, now);
    GateSpaces(TimesOf(s.history, c), c);
    SpacedBoundsCount(TimesOf(s.history, c), 11, now - HOUR);
  }

  lemma SpacedBoundsCount(times: seq<Time>, cap: nat, cut: Time)
    requires Sorted(times) && Spaced(times, cap) && forall i :: 0 <= i < |times| ==> times[i] <= cut + HOUR
    ensures CountAfter(times, cut) <= cap
  {
    if CountAfter(times, cut) > cap {
      AtMostAll(times, cut);
      PastTheSpan(times, cap, |times| - cap - 1, |times| - 1);
      ManyMeansLate(times, cut, cap + 1);
    }
  }

  lemma {:induction false} ManyMeansLate(times: seq<Time>, cut: Time, n: nat)
    requires Sorted(times) && 0 < n <= CountAfter(times, cut)
    ensures n <= |times| && times[|times| - n] > cut
    decreases |times|
  {
    AtMostAll(times, cut);
    var last := |times| - 1;
    if times[last] <= cut {
      NoneAfter(times, cut);
    } else if n > 1 {
      ManyMeansLate(times[..last], cut, n - 1);
    }
  }

  lemma {:induction false} AtMostAll(times: seq<Time>, cut: Time)
    ensures CountAfter(times, cut) <= |times|
    decreases |times|
  {
    if times != [] {
      AtMostAll(times[..|times| - 1], cut);
    }
  }

  // ------------------------------------------------------------------ the bound is reached

  /** One failed attempt after another, of one address and client. */
  function Attempts(times: seq<Time>, address: string, client: string): seq<Step> {
    seq(|times|, i requires 0 <= i < |times| => Step(Attempt(address, client, false, Failed(false)), times[i]))
  }

  function Failures(times: seq<Time>, address: string, client: string): seq<Row> {
    if times == [] then []
    else
      var n := |times| - 1;
      Failures(times[..n], address, client) + Counted(FailureCounters(address, client, false), times[n])
  }

  lemma OncePerFailure(now: Time, address: string, client: string, c: Counter)
    ensures TimesOf(Counted(FailureCounters(address, client, false), now), c)
            == if c in FailureCounters(address, client, false) then [now] else []
  {
    CountedOnceEach(FailureCounters(address, client, false), now, c);
  }

  lemma {:induction false} FailureTimes(times: seq<Time>, address: string, client: string, c: Counter)
    ensures TimesOf(Failures(times, address, client), c)
            == if c in FailureCounters(address, client, false) then times else []
  {
    if times != [] {
      FailureTimes(times[..|times| - 1], address, client, c);
      OneMoreFailure(times, address, client, c);
    }
  }

  lemma OneMoreFailure(times: seq<Time>, address: string, client: string, c: Counter)
    requires times != []
    ensures var n := |times| - 1;
            TimesOf(Failures(times, address, client), c)
            == TimesOf(Failures(times[..n], address, client), c)
               + (if c in FailureCounters(address, client, false) then [times[n]] else [])
  {
    var n := |times| - 1;
    OncePerFailure(times[n], address, client, c);
    TimesOfMore(Failures(times[..n], address, client), Counted(FailureCounters(address, client, false), times[n]), c);
  }

  lemma {:induction false} FailuresInOrder(times: seq<Time>, address: string, client: string)
    requires Sorted(times)
    ensures InOrder(Failures(times, address, client))
    ensures forall r :: r in Failures(times, address, client) ==> times != [] && r.at <= times[|times| - 1]
  {
    if times != [] {
      FailuresInOrder(times[..|times| - 1], address, client);
    }
  }

  lemma NewestFailure(times: seq<Time>, now: Time, address: string, client: string)
    requires Sorted(times) && times != [] && times[|times| - 1] > now - HOUR
    ensures Newest(Failures(times, address, client), LoginPair(address, client), now) == Some(times[|times| - 1])
  {
    FailureTimes(times, address, client, LoginPair(address, client));
    FailuresInOrder(times, address, client);
    NewestIsLast(Failures(times, address, client), LoginPair(address, client), now);
  }

  function PairGate(address: string, client: string): Gate {
    GateOf(LoginPair(address, client))
  }

  lemma WaitedAtEnd(times: seq<Time>, now: Time, g: Gate)
    requires times != [] && WaitedAt(times + [now], |times|, g)
    ensures HasWaited(CountAfter(times, now - HOUR), now - times[|times| - 1], g)
  {
    assert (times + [now])[..|times|] == times;
  }

  lemma PairGateOpens(times: seq<Time>, now: Time, address: string, client: string)
    requires Sorted(times) && (times == [] || WaitedAt(times + [now], |times|, PairGate(address, client)))
    ensures GateWait(Failures(times, address, client), PairGate(address, client), now) == 0
  {
    var c := LoginPair(address, client);
    var rows := Failures(times, address, client);
    assert Recent(rows, c, now) == CountAfter(times, now - HOUR) by {
      FailureTimes(times, address, client, c);
      RecentIsCount(rows, c, now);
    }
    if CountAfter(times, now - HOUR) >= LOGIN_FREE {
      WaitedAtEnd(times, now, PairGate(address, client));
      FewAfterOrLast(times, now - HOUR);
      NewestFailure(times, now, address, client);
    }
  }

  lemma OtherGatesOpen(times: seq<Time>, now: Time, address: string, client: string, g: Gate)
    requires |times| < g.free || (g.counter == LoginCode(address) && 0 < g.free)
    ensures GateWait(Failures(times, address, client), g, now) == 0
  {
    FailureTimes(times, address, client, g.counter);
    RecentIsCount(Failures(times, address, client), g.counter, now);
    AtMostAll(TimesOf(Failures(times, address, client), g.counter), now - HOUR);
  }

  /** After as many failures, the attempt that has waited meets open gates. */
  lemma WaitedIsLetThrough(times: seq<Time>, now: Time, address: string, client: string)
    requires Sorted(times) && (times == [] || WaitedAt(times + [now], |times|, PairGate(address, client)))
    requires |times| < LOGIN_FREE_ADDR
    ensures GateOpen(Failures(times, address, client), address, client, false, now)
  {
    PairGateOpens(times, now, address, client);
    OtherGatesOpen(times, now, address, client, Gate(LoginCode(address), LOGIN_FREE, LOGIN_CAP));
    OtherGatesOpen(times, now, address, client, Gate(LoginAddress(address), LOGIN_FREE_ADDR, LOGIN_ADDR_DELAY_MAX));
    OtherGatesOpen(times, now, address, client, Gate(LoginClient(client), LOGIN_FREE_IP, LOGIN_CAP));
  }

  lemma WaitedBefore(times: seq<Time>, g: Gate)
    requires times != [] && Sorted(times) && Waited(times, g)
    ensures Sorted(times[..|times| - 1]) && Waited(times[..|times| - 1], g)
  {
    var init := times[..|times| - 1];
    assert forall i :: 0 < i < |init| ==> init[..i] == times[..i] && WaitedAt(times, i, g);
  }

  lemma {:induction false} RunThenOne(s: State, steps: seq<Step>, last: Step)
    ensures Run(s, steps + [last]) == Next(Run(s, steps), last)
    decreases |steps|
  {
    if steps == [] {
      assert [] + [last] == [last] && [last][1..] == [];
    } else {
      assert (steps + [last])[1..] == steps[1..] + [last];
      RunThenOne(Next(s, steps[0]), steps[1..], last);
    }
  }

  /** Any times that have waited are the failures of a run: the waits alone bound them. */
  lemma {:induction false} WaitedIsARun(times: seq<Time>, address: string, client: string)
    requires Sorted(times) && Waited(times, PairGate(address, client)) && |times| <= LOGIN_FREE_ADDR
    ensures var rows := Failures(times, address, client);
            Run(Start(), Attempts(times, address, client)) == State(rows, rows)
  {
    if times != [] {
      var n := |times| - 1;
      var init, now := times[..n], times[n];
      assert init + [now] == times;
      WaitedBefore(times, PairGate(address, client));
      WaitedIsARun(init, address, client);
      WaitedIsLetThrough(init, now, address, client);
      var steps := Attempts(times, address, client);
      assert steps == Attempts(init, address, client) + [steps[n]];
      RunThenOne(Start(), Attempts(init, address, client), steps[n]);
    }
  }

  /** Eleven failures do fit into an hour: five at once and six after the shortest waits. */
  lemma ElevenWaited(g: Gate)
    requires g.free == 5 && g.cap == 3600
    ensures var times := [0.0, 0.0, 0.0, 0.0, 0.0, 30.0, 90.0, 210.0, 450.0, 930.0, 1890.0];
            Sorted(times) && Waited(times, g)
  {
    var times := [0.0, 0.0, 0.0, 0.0, 0.0, 30.0, 90.0, 210.0, 450.0, 930.0, 1890.0];
    Doubles(5);
    forall i | 0 < i < |times| ensures WaitedAt(times, i, g) {
      AtMostAll(times[..i], times[i] - HOUR);
      if i >= 5 {
        ManyAfter(times[..i], times[i] - HOUR, 0);
        assert FullWait(i, 5, 3600) as real <= times[i] - times[i - 1];
      }
    }
  }

  /** So the bound of eleven is reached, by attempts that every gate lets through. */
  lemma ElevenFit(address: string, client: string)
    ensures var times := [0.0, 0.0, 0.0, 0.0, 0.0, 30.0, 90.0, 210.0, 450.0, 930.0, 1890.0];
            var history := Run(Start(), Attempts(times, address, client)).history;
            |InHourFrom(TimesOf(history, LoginPair(address, client)), 0.0)| == 11
  {
    var times := [0.0, 0.0, 0.0, 0.0, 0.0, 30.0, 90.0, 210.0, 450.0, 930.0, 1890.0];
    ElevenWaited(PairGate(address, client));
    WaitedIsARun(times, address, client);
    FailureTimes(times, address, client, LoginPair(address, client));
    AllInHour(times);
  }

  lemma AllInHour(times: seq<Time>)
    requires forall i :: 0 <= i < |times| ==> 0.0 <= times[i] < HOUR
    ensures |InHourFrom(times, 0.0)| == |times|
  {
    assert InHourFrom(times, 0.0) == Range(0, |times|);
  }
}
