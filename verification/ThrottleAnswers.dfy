/**
  What the limits answer, in numbers: which mails and which sign-in attempts are let through, on any table and over
  every run, and runs that use a limit up (backend/dgate/accounts.py).
 */
module ThrottleAnswers {
  import opened Wrappers
  import opened Throttle
  import opened ThrottleRuns

  // ------------------------------------------------------------------ counting

  /** The places of a counter's rows of the last hour: an hour old is too old. */
  function LastHour(rows: seq<Row>, c: Counter, now: Time): set<nat> {
    set i | 0 <= i < |rows| && rows[i].counter == c && now - rows[i].at < 3600.0
  }

  lemma LastHourMore(rows: seq<Row>, row: Row, c: Counter, now: Time)
    ensures |rows| !in LastHour(rows, c, now)
    ensures LastHour(rows + [row], c, now)
            == LastHour(rows, c, now) + (if row.counter == c && now - row.at < 3600.0 then {|rows|} else {})
  {
  }

  lemma {:induction false} RecentExact(rows: seq<Row>, c: Counter, now: Time)
    ensures Recent(rows, c, now) == |LastHour(rows, c, now)|
  {
    if rows != [] {
      var n := |rows| - 1;
      RecentExact(rows[..n], c, now);
      LastHourMore(rows[..n], rows[n], c, now);
      assert rows[..n] + [rows[n]] == rows;
    }
  }

  /** The newest time of the counter in the last hour, and none only if it has none. */
  ghost predicate IsNewest(rows: seq<Row>, c: Counter, now: Time, newest: Option<Time>) {
    if newest.None? then LastHour(rows, c, now) == {}
    else
      && (exists i :: i in LastHour(rows, c, now) && rows[i].at == newest.value)
      && (forall i :: i in LastHour(rows, c, now) ==> rows[i].at <= newest.value)
  }

  lemma {:induction false} NewestExact(rows: seq<Row>, c: Counter, now: Time)
    ensures IsNewest(rows, c, now, Newest(rows, c, now))
  {
    if rows != [] {
      var n := |rows| - 1;
      NewestExact(rows[..n], c, now);
      OneMoreNewest(rows[..n], rows[n], c, now, Newest(rows[..n], c, now));
      assert rows[..n] + [rows[n]] == rows;
    }
  }

  lemma OneMoreNewest(rows: seq<Row>, row: Row, c: Counter, now: Time, newest: Option<Time>)
    requires IsNewest(rows, c, now, newest)
    ensures IsNewest(rows + [row], c, now,
                     if row.counter == c && row.at > now - HOUR && (newest.None? || newest.value < row.at) then Some(row.at) else newest)
  {
    LastHourMore(rows, row, c, now);
    var all := rows + [row];
    if newest.Some? {
      var i :| i in LastHour(rows, c, now) && rows[i].at == newest.value;
      assert i in LastHour(all, c, now) && all[i].at == newest.value;
    }
    assert all[|rows|] == row;
  }

  // ------------------------------------------------------------------ mails

  /** The four counts that a mail request is judged by. */
  datatype Counts = Counts(pair: nat, address: nat, client: nat, all: nat)

  function CountsOf(rows: seq<Row>, address: string, client: string, now: Time): Counts {
    Counts(|LastHour(rows, MailPair(address, client), now)|, |LastHour(rows, MailAddress(address), now)|,
           |LastHour(rows, MailClient(client), now)|, |LastHour(rows, MailAll, now)|)
  }

  /** The client's share: twenty, and three once half of the hour's mails are gone. */
  predicate ClientMay(n: Counts) {
    n.client < 20 && (n.all >= 60 ==> n.client < 3)
  }

  /** The ceiling: 120, of which the last forty are for clients that have sent none. */
  predicate AllMay(n: Counts) {
    n.all < 120 && (n.all >= 80 ==> n.client == 0)
  }

  predicate MayMail(n: Counts) {
    n.pair < 3 && n.address < 5 && ClientMay(n) && AllMay(n)
  }

  /** Which mail is let through, and which limit refuses the others. */
  lemma MailAnswerExact(rows: seq<Row>, address: string, client: string, now: Time)
    ensures var n, refused := CountsOf(rows, address, client, now), MailRefusal(rows, address, client, now);
            && (refused == None <==> MayMail(n))
            && (refused == Some(MailClient(client)) <==> !ClientMay(n))
            && (refused == Some(MailPair(address, client)) <==> ClientMay(n) && n.pair >= 3)
            && (refused == Some(MailAddress(address)) <==> ClientMay(n) && n.pair < 3 && n.address >= 5)
            && (refused == Some(MailAll) <==> ClientMay(n) && n.pair < 3 && n.address < 5 && !AllMay(n))
  {
    RecentExact(rows, MailPair(address, client), now);
    RecentExact(rows, MailAddress(address), now);
    RecentExact(rows, MailClient(client), now);
    RecentExact(rows, MailAll, now);
  }

  /** A mail is counted once for its pair, its address, its client and all, and for nobody else. */
  lemma MailIsCounted(address: string, client: string, now: Time, c: Counter)
    ensures TimesOf(Counted(MailCounters(address, client), now), c)
            == if c == MailPair(address, client) || c == MailAddress(address) || c == MailClient(client) || c == MailAll
               then [now] else []
  {
    CountedOnceEach(MailCounters(address, client), now, c);
  }

  lemma ReadsAlike(s: State, c: Counter, now: Time)
    requires Sound(s, now)
    ensures |LastHour(s.rows, c, now)| == |LastHour(s.history, c, now)|
  {
    assert AgreeOn(s.rows, s.history, c, now);
    RecentExact(s.rows, c, now);
    RecentExact(s.history, c, now);
  }

  /** Over every run a mail is let through exactly when the mails sent in the hour before, pruned or not, leave room for
      it. */
  lemma MailsOverRuns(steps: seq<Step>, from: Time, address: string, client: string, now: Time)
    requires Clocked(from, steps) && from <= now && forall i :: 0 <= i < |steps| ==> steps[i].now <= now
    ensures var s := Run(Start(), steps);
            MailRefusal(s.rows, address, client, now).None? <==> MayMail(CountsOf(s.history, address, client, now))
  {
    MailsFrom(Start(), steps, from, address, client, now);
  }

  lemma MailsFrom(start: State, steps: seq<Step>, from: Time, address: string, client: string, now: Time)
    requires Sound(start, from) && Kept(start.history, MailAll)
    requires Clocked(from, steps) && from <= now && forall i :: 0 <= i < |steps| ==> steps[i].now <= now
    ensures var s := Run(start, steps);
            MailRefusal(s.rows, address, client, now).None? <==> MayMail(CountsOf(s.history, address, client, now))
  {
    RunKeeps(start, steps, from, now, MailAll);
    AnswerOfHistory(Run(start, steps), address, client, now);
  }

  lemma AnswerOfHistory(s: State, address: string, client: string, now: Time)
    requires Sound(s, now)
    ensures MayMail(CountsOf(s.history, address, client, now)) ==> MailRefusal(s.rows, address, client, now) == None
    ensures MailRefusal(s.rows, address, client, now) == None ==> MayMail(CountsOf(s.history, address, client, now))
  {
    CountsAlike(s, address, client, now);
    MailAnswerExact(s.rows, address, client, now);
  }

  /** Then it is counted, and a refused one changes nothing. */
  lemma MailStep(s: State, address: string, client: string, now: Time)
    ensures Next(s, Step(Mail(address, client), now))
            == if MailRefusal(s.rows, address, client, now).Some? then s else Added(s, Counted(MailCounters(address, client), now))
  {
  }

  lemma CountsAlike(s: State, address: string, client: string, now: Time)
    requires Sound(s, now)
    ensures CountsOf(s.rows, address, client, now) == CountsOf(s.history, address, client, now)
  {
    ReadsAlike(s, MailPair(address, client), now);
    ReadsAlike(s, MailAddress(address), now);
    ReadsAlike(s, MailClient(client), now);
    ReadsAlike(s, MailAll, now);
  }

  /** So a client that has sent three in the hour sends no more once sixty are gone, whatever the run. */
  lemma CrowdedClientsStop(steps: seq<Step>, from: Time, address: string, client: string, now: Time)
    requires Clocked(from, steps) && from <= now && forall i :: 0 <= i < |steps| ==> steps[i].now <= now
    requires var h := Run(Start(), steps).history;
             |LastHour(h, MailAll, now)| >= 60 && |LastHour(h, MailClient(client), now)| >= 3
    ensures Run(Start(), steps + [Step(Mail(address, client), now)]) == Run(Start(), steps)
  {
    RunThenOne(Start(), steps, Step(Mail(address, client), now));
    MailsOverRuns(steps, from, address, client, now);
    MailStep(Run(Start(), steps), address, client, now);
  }

  // ------------------------------------------------------------------ limits that are used up

  function Name(i: nat): string {
    seq(i + 1, _ => 'x')
  }

  lemma NamesDiffer(i: nat, j: nat)
    ensures Name(i) == Name(j) <==> i == j
  {
    assert |Name(i)| == i + 1 && |Name(j)| == j + 1;
  }

  /** One client, or one for each mail. */
  function ClientOf(i: nat, single: bool): string {
    if single then Name(0) else Name(i)
  }

  /** Mails at one moment, each to an address of its own. */
  function Mails(n: nat, single: bool): seq<Step> {
    if n == 0 then [] else Mails(n - 1, single) + [Step(Mail(Name(n - 1), ClientOf(n - 1, single)), 0.0)]
  }

  function MailRows(n: nat, single: bool): seq<Row> {
    if n == 0 then [] else MailRows(n - 1, single) + Counted(MailCounters(Name(n - 1), ClientOf(n - 1, single)), 0.0)
  }

  /** How many of the first `n` mails are counted for whom. */
  lemma {:induction false} MailRowTimes(n: nat, single: bool, k: nat, c: Counter)
    requires n <= k
    requires c == MailAll || c == MailAddress(Name(k)) || c == MailClient(ClientOf(k, single))
             || c == MailPair(Name(k), ClientOf(k, single))
    ensures |TimesOf(MailRows(n, single), c)| == if c == MailAll || (single && c.MailClient?) then n else 0
    ensures forall i :: 0 <= i < |TimesOf(MailRows(n, single), c)| ==> TimesOf(MailRows(n, single), c)[i] == 0.0
  {
    if n > 0 {
      MailRowTimes(n - 1, single, k, c);
      OneMailMore(n - 1, single, k, c);
    }
  }

  lemma OneMailMore(n: nat, single: bool, k: nat, c: Counter)
    requires n < k
    requires c == MailAll || c == MailAddress(Name(k)) || c == MailClient(ClientOf(k, single))
             || c == MailPair(Name(k), ClientOf(k, single))
    ensures TimesOf(MailRows(n + 1, single), c)
            == TimesOf(MailRows(n, single), c) + (if c == MailAll || (single && c.MailClient?) then [0.0] else [])
  {
    TimesOfMore(MailRows(n, single), Counted(MailCounters(Name(n), ClientOf(n, single)), 0.0), c);
    MailIsCounted(Name(n), ClientOf(n, single), 0.0, c);
    NamesDiffer(n, k);
  }

  lemma {:induction false} AllAtOnce(times: seq<Time>)
    requires forall i :: 0 <= i < |times| ==> times[i] == 0.0
    ensures CountAfter(times, -HOUR) == |times|
  {
    if times != [] {
      AllAtOnce(times[..|times| - 1]);
    }
  }

  lemma CountAtOnce(rows: seq<Row>, c: Counter)
    requires forall i :: 0 <= i < |TimesOf(rows, c)| ==> TimesOf(rows, c)[i] == 0.0
    ensures |LastHour(rows, c, 0.0)| == |TimesOf(rows, c)|
  {
    RecentIsCount(rows, c, 0.0);
    AllAtOnce(TimesOf(rows, c));
    RecentExact(rows, c, 0.0);
  }

  lemma MailRowCount(n: nat, single: bool, c: Counter)
    requires c == MailAll || c == MailAddress(Name(n)) || c == MailClient(ClientOf(n, single))
             || c == MailPair(Name(n), ClientOf(n, single))
    ensures |LastHour(MailRows(n, single), c, 0.0)| == if c == MailAll || (single && c.MailClient?) then n else 0
  {
    MailRowTimes(n, single, n, c);
    CountAtOnce(MailRows(n, single), c);
  }

  /** The next mail goes through while twenty of one client, or 120 of as many clients, are not reached; then no more. */
  lemma NextMail(n: nat, single: bool)
    ensures MailRefusal(MailRows(n, single), Name(n), ClientOf(n, single), 0.0).None? <==> n < if single then 20 else 120
  {
    MailAnswerExact(MailRows(n, single), Name(n), ClientOf(n, single), 0.0);
    MailRowCount(n, single, MailAll);
    MailRowCount(n, single, MailAddress(Name(n)));
    MailRowCount(n, single, MailClient(ClientOf(n, single)));
    MailRowCount(n, single, MailPair(Name(n), ClientOf(n, single)));
  }

  lemma {:induction false} MailsAreARun(n: nat, single: bool)
    requires n <= if single then 20 else 120
    ensures Run(Start(), Mails(n, single)) == State(MailRows(n, single), MailRows(n, single))
  {
    if n > 0 {
      MailsAreARun(n - 1, single);
      NextMail(n - 1, single);
      RunThenOne(Start(), Mails(n - 1, single), Step(Mail(Name(n - 1), ClientOf(n - 1, single)), 0.0));
    }
  }

  /** A run of twenty mails of one client is let through, and one of 120 mails of as many clients; the next is refused. */
  lemma LimitsAreReached(n: nat, single: bool)
    requires n == if single then 20 else 120
    ensures var s := Run(Start(), Mails(n, single));
            && |LastHour(s.history, if single then MailClient(Name(0)) else MailAll, 0.0)| == n
            && Run(Start(), Mails(n + 1, single)) == s
  {
    MailsAreARun(n, single);
    MailRowCount(n, single, if single then MailClient(Name(0)) else MailAll);
    NextMail(n, single);
    RunThenOne(Start(), Mails(n, single), Step(Mail(Name(n), ClientOf(n, single)), 0.0));
  }

  // ------------------------------------------------------------------ sign-ins

  /** The waits, in seconds: thirty after the last free failure, doubling, an hour at most; or a minute at most. */
  lemma WaitsExact(free: nat, k: nat)
    ensures FullWait(free + k, free, LOGIN_CAP)
            == if k == 0 then 30 else if k == 1 then 60 else if k == 2 then 120 else if k == 3 then 240
               else if k == 4 then 480 else if k == 5 then 960 else if k == 6 then 1920 else 3600
    ensures FullWait(free + k, free, LOGIN_ADDR_DELAY_MAX) == if k == 0 then 30 else 60
  {
    Doubles(free);
    if k > 7 {
      Pow2Grows(7, if k < 12 then k else 12);
    }
  }

  /** The failures of the hour leave the gate open: few enough, or the last of them long enough ago. */
  predicate Opens(rows: seq<Row>, c: Counter, free: nat, minute: bool, now: Time) {
    var n := |LastHour(rows, c, now)|;
    n < free || forall i :: i in LastHour(rows, c, now) ==> now - rows[i].at >= Pause(n - free, minute) as real
  }

  function Pause(k: nat, minute: bool): nat {
    if k == 0 then 30 else if minute || k == 1 then 60 else if k == 2 then 120 else if k == 3 then 240
    else if k == 4 then 480 else if k == 5 then 960 else if k == 6 then 1920 else 3600
  }

  lemma OpensExact(rows: seq<Row>, g: Gate, now: Time, minute: bool)
    requires g.free > 0 && g.cap == if minute then LOGIN_ADDR_DELAY_MAX else LOGIN_CAP
    ensures GateWait(rows, g, now) == 0 <==> Opens(rows, g.counter, g.free, minute, now)
  {
    var n := |LastHour(rows, g.counter, now)|;
    RecentExact(rows, g.counter, now);
    NewestExact(rows, g.counter, now);
    if n >= g.free {
      WaitsExact(g.free, n - g.free);
      LatestPause(rows, g.counter, now, Pause(n - g.free, minute) as real);
    }
  }

  lemma LatestPause(rows: seq<Row>, c: Counter, now: Time, pause: real)
    requires LastHour(rows, c, now) != {}
    ensures SinceNewest(rows, c, now) >= pause <==> forall i :: i in LastHour(rows, c, now) ==> now - rows[i].at >= pause
  {
    NewestExact(rows, c, now);
  }

  /** An attempt is let through exactly when the failures of the hour leave every gate open that stands before it: five
      are free of its pair and, of wrong codes, of its address; twenty of its address, thirty of its client; a signed-in
      session meets the pair's gate alone. */
  lemma AttemptExact(rows: seq<Row>, address: string, client: string, session: bool, now: Time)
    ensures GateOpen(rows, address, client, session, now)
            <==> Opens(rows, LoginPair(address, client), 5, false, now)
                 && (session || (Opens(rows, LoginCode(address), 5, false, now)
                                 && Opens(rows, LoginAddress(address), 20, true, now)
                                 && Opens(rows, LoginClient(client), 30, false, now)))
  {
    var gates := Gates(address, client, session);
    OpensExact(rows, gates[0], now, false);
    if !session {
      OpensExact(rows, gates[1], now, false);
      OpensExact(rows, gates[2], now, true);
      OpensExact(rows, gates[3], now, false);
    }
  }

  /** A failure counts once for its pair, its address and its client, and where it was a code, for the address's codes. */
  lemma FailureIsCounted(address: string, client: string, code: bool, now: Time, c: Counter)
    ensures TimesOf(Counted(FailureCounters(address, client, code), now), c)
            == if c == LoginPair(address, client) || c == LoginAddress(address) || c == LoginClient(client)
                  || (code && c == LoginCode(address)) then [now] else []
  {
    CountedOnceEach(FailureCounters(address, client, code), now, c);
  }

  /** A sign-in clears the failures and the codes of its address and those of its pair, and of nobody else: another
      client's lockout, the client's own counter and every mail stay counted. */
  lemma SignInClears(rows: seq<Row>, address: string, client: Option<string>, c: Counter, now: Time)
    ensures |LastHour(Cleared(rows, address, client), c, now)|
            == match c
               case LoginAddress(x) => (if x == address then 0 else |LastHour(rows, c, now)|)
               case LoginCode(x) => (if x == address then 0 else |LastHour(rows, c, now)|)
               case LoginPair(x, y) => (if x == address && client == Some(y) then 0 else |LastHour(rows, c, now)|)
               case _ => |LastHour(rows, c, now)|
  {
    ClearedReads(rows, address, client, c, now);
    RecentExact(rows, c, now);
    RecentExact(Cleared(rows, address, client), c, now);
    RecentExact([], c, now);
  }

  /** Pruning removes exactly the rows that are more than a day old. */
  lemma {:induction false} PrunedExact(rows: seq<Row>, now: Time, r: Row)
    ensures multiset(Pruned(rows, now))[r] == if now - r.at <= 86400.0 then multiset(rows)[r] else 0
  {
    if rows != [] {
      var n := |rows| - 1;
      PrunedExact(rows[..n], now, r);
      assert rows == rows[..n] + [rows[n]];
    }
  }
}
