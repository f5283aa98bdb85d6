/**
  Rate limits on account mails and on sign-in attempts (backend/dgate/accounts.py).

  Accepted requests and failed sign-ins are rows with a time; a request is judged by the rows of the last
  hour. `Throttle` holds the table, its methods are the checks and the writes.
 */
module Throttle {
  import opened Wrappers

  type Time = real

  const HOUR: Time := 3600.0
  const DAY: Time := 86400.0

  const LIMIT_PER_ADDRESS: nat := 5
  const LIMIT_PER_ADDRESS_PER_IP: nat := 3
  const LIMIT_PER_IP: nat := 20
  const LIMIT_PER_IP_CROWDED: nat := 3
  const LIMIT_GLOBAL: nat := 120
  const LIMIT_GLOBAL_REPEAT: nat := 80

  const LOGIN_FREE: nat := 5
  const LOGIN_FREE_ADDR: nat := 20
  const LOGIN_ADDR_DELAY_MAX: nat := 60
  const LOGIN_FREE_IP: nat := 30
  const LOGIN_DELAY: nat := 30
  const LOGIN_CAP: nat := 3600

  /** What is counted: the kind of counter and the key it is kept under. */
  datatype Counter =
    | MailAddress(address: string) | MailPair(address: string, client: string) | MailClient(client: string) | MailAll
    | LoginPair(address: string, client: string) | LoginCode(address: string)
    | LoginAddress(address: string) | LoginClient(client: string)

  datatype Row = Row(counter: Counter, at: Time)

  // ------------------------------------------------------------------ counting

  /** `_recent`: the rows of a counter in the hour before `now`. */
  function Recent(rows: seq<Row>, c: Counter, now: Time): nat {
    if rows == [] then 0
    else
      var last := rows[|rows| - 1];
      Recent(rows[..|rows| - 1], c, now) + if last.counter == c && last.at > now - HOUR then 1 else 0
  }

  /** max(at) over the same rows. */
  function Newest(rows: seq<Row>, c: Counter, now: Time): Option<Time> {
    if rows == [] then None
    else
      var last, rest := rows[|rows| - 1], Newest(rows[..|rows| - 1], c, now);
      if last.counter == c && last.at > now - HOUR && (rest.None? || rest.value < last.at) then Some(last.at) else rest
  }

  function Counted(counters: seq<Counter>, now: Time): seq<Row> {
    seq(|counters|, i requires 0 <= i < |counters| => Row(counters[i], now))
  }

  // ------------------------------------------------------------------ mails

  function MailCounters(address: string, client: string): seq<Counter> {
    [MailAddress(address), MailPair(address, client), MailClient(client), MailAll]
  }

  function ClientCap(total: nat): nat {
    if total < LIMIT_GLOBAL / 2 then LIMIT_PER_IP else LIMIT_PER_IP_CROWDED
  }

  /** The limit a mail request runs into, the client's first, or None. */
  function MailRefusal(rows: seq<Row>, address: string, client: string, now: Time): Option<Counter> {
    var total := Recent(rows, MailAll, now);
    if Recent(rows, MailClient(client), now) >= ClientCap(total) then Some(MailClient(client))
    else if Recent(rows, MailPair(address, client), now) >= LIMIT_PER_ADDRESS_PER_IP then Some(MailPair(address, client))
    else if Recent(rows, MailAddress(address), now) >= LIMIT_PER_ADDRESS then Some(MailAddress(address))
    else if total >= LIMIT_GLOBAL || (total >= LIMIT_GLOBAL_REPEAT && Recent(rows, MailClient(client), now) > 0)
    then Some(MailAll)
    else None
  }

  // ------------------------------------------------------------------ sign-in

  function Pow2(n: nat): (r: nat)
    ensures r >= 1
  {
    if n == 0 then 1 else 2 * Pow2(n - 1)
  }

  function Ceiling(x: real): int {
    -((-x).Floor)
  }

  /** The wait after the last of so many failures, of which `free` cost nothing. */
  function FullWait(failures: nat, free: nat, cap: nat): nat
    requires failures >= free
  {
    var doubled := LOGIN_DELAY * Pow2(if failures - free < 12 then failures - free else 12);
    if doubled < cap then doubled else cap
  }

  /** `login_wait`: seconds before the next attempt is answered. */
  function LoginWait(failures: nat, sinceLast: Time, free: nat, cap: nat): (wait: nat)
    ensures wait == 0 <==> failures < free || FullWait(failures, free, cap) as real <= sinceLast
    ensures sinceLast >= 0.0 ==> wait <= cap
  {
    if failures < free then 0
    else
      var left := Ceiling(FullWait(failures, free, cap) as real - sinceLast);
      if left > 0 then left else 0
  }

  datatype Gate = Gate(counter: Counter, free: nat, cap: nat)

  function Gates(address: string, client: string, session: bool): seq<Gate> {
    [Gate(LoginPair(address, client), LOGIN_FREE, LOGIN_CAP)] +
    if session then []
    else [Gate(LoginCode(address), LOGIN_FREE, LOGIN_CAP),
          Gate(LoginAddress(address), LOGIN_FREE_ADDR, LOGIN_ADDR_DELAY_MAX),
          Gate(LoginClient(client), LOGIN_FREE_IP, LOGIN_CAP)]
  }

  function SinceNewest(rows: seq<Row>, c: Counter, now: Time): Time {
    match Newest(rows, c, now)
    case None => 0.0
    case Some(at) => now - at
  }

  function GateWait(rows: seq<Row>, g: Gate, now: Time): nat {
    LoginWait(Recent(rows, g.counter, now), SinceNewest(rows, g.counter, now), g.free, g.cap)
  }

  predicate GateOpen(rows: seq<Row>, address: string, client: string, session: bool, now: Time) {
    forall i :: 0 <= i < |Gates(address, client, session)| ==>
      GateWait(rows, Gates(address, client, session)[i], now) == 0
  }

  function FailureCounters(address: string, client: string, code: bool): seq<Counter> {
    [LoginPair(address, client), LoginAddress(address), LoginClient(client)] +
    if code then [LoginCode(address)] else []
  }

  /** The counters a successful sign-in clears; without a client, only the address's own. */
  predicate ClearedBy(c: Counter, address: string, client: Option<string>) {
    c == LoginAddress(address) || c == LoginCode(address)
    || (client.Some? && c == LoginPair(address, client.value))
  }

  function Cleared(rows: seq<Row>, address: string, client: Option<string>): seq<Row> {
    if rows == [] then []
    else
      var last, rest := rows[|rows| - 1], Cleared(rows[..|rows| - 1], address, client);
      if ClearedBy(last.counter, address, client) then rest else rest + [last]
  }

  /** Both tables read the same for a counter at a time. */
  predicate AgreeOn(rows: seq<Row>, others: seq<Row>, c: Counter, t: Time) {
    Recent(rows, c, t) == Recent(others, c, t) && Newest(rows, c, t) == Newest(others, c, t)
  }

  /** The counters a sign-in clears read as if nothing had been counted, and every other as before. */
  ghost predicate ForgetsOnly(before: seq<Row>, after: seq<Row>, address: string, client: Option<string>) {
    forall c, t :: if ClearedBy(c, address, client) then AgreeOn(after, [], c, t) else AgreeOn(after, before, c, t)
  }

  /** One row more is read as one count more, and as the newest if it is newer. */
  lemma ReadsOneMore(rows: seq<Row>, row: Row, c: Counter, t: Time)
    ensures Recent(rows + [row], c, t) == Recent(rows, c, t) + (if row.counter == c && row.at > t - HOUR then 1 else 0)
    ensures var newest := Newest(rows, c, t);
            Newest(rows + [row], c, t)
            == if row.counter == c && row.at > t - HOUR && (newest.None? || newest.value < row.at) then Some(row.at) else newest
  {
    assert (rows + [row])[..|rows|] == rows;
  }

  lemma AgreeOneMore(rows: seq<Row>, others: seq<Row>, row: Row, c: Counter, t: Time)
    requires AgreeOn(rows, others, c, t)
    ensures AgreeOn(rows + [row], others + [row], c, t)
    ensures row.counter != c ==> AgreeOn(rows + [row], others, c, t) && AgreeOn(rows, others + [row], c, t)
  {
    ReadsOneMore(rows, row, c, t);
    ReadsOneMore(others, row, c, t);
  }

  lemma {:induction false} ClearedReads(rows: seq<Row>, address: string, client: Option<string>, c: Counter, t: Time)
    ensures var rest := Cleared(rows, address, client);
            if ClearedBy(c, address, client) then AgreeOn(rest, [], c, t) else AgreeOn(rest, rows, c, t)
  {
    if rows != [] {
      var init, last := rows[..|rows| - 1], rows[|rows| - 1];
      ClearedReads(init, address, client, c, t);
      assert rows == init + [last];
      AgreeOneMore(Cleared(init, address, client), if ClearedBy(c, address, client) then [] else init, last, c, t);
    }
  }

  /** `_prune`: rows older than a day go. */
  function Pruned(rows: seq<Row>, now: Time): seq<Row> {
    if rows == [] then []
    else
      var last, rest := rows[|rows| - 1], Pruned(rows[..|rows| - 1], now);
      if last.at < now - DAY then rest else rest + [last]
  }

  // ------------------------------------------------------------------ the table

  class Throttle {
    var rows: seq<Row>

    constructor ()
      ensures rows == []
    {
      rows := [];
    }

    method Count(c: Counter, now: Time)
      modifies this
      ensures rows == old(rows) + [Row(c, now)]
    {
      rows := rows + [Row(c, now)];
    }

    /** `_throttle_mail`: a refused request leaves no trace, an accepted one raises all four counts. */
    method ThrottleMail(address: string, client: string, now: Time) returns (refused: Option<Counter>)
      modifies this
      ensures refused == MailRefusal(old(rows), address, client, now)
      ensures rows == if refused.Some? then old(rows) else old(rows) + Counted(MailCounters(address, client), now)
    {
      var total := Recent(rows, MailAll, now);
      var limits := [(MailClient(client), ClientCap(total)), (MailPair(address, client), LIMIT_PER_ADDRESS_PER_IP),
                     (MailAddress(address), LIMIT_PER_ADDRESS)];
      for i := 0 to |limits|
        invariant forall j :: 0 <= j < i ==> Recent(rows, limits[j].0, now) < limits[j].1
        invariant rows == old(rows)
      {
        if Recent(rows, limits[i].0, now) >= limits[i].1 {
          assert i > 0 ==> Recent(rows, limits[0].0, now) < limits[0].1;
          assert i > 1 ==> Recent(rows, limits[1].0, now) < limits[1].1;
          return Some(limits[i].0);
        }
      }
      assert Recent(rows, limits[0].0, now) < limits[0].1 && Recent(rows, limits[1].0, now) < limits[1].1
             && Recent(rows, limits[2].0, now) < limits[2].1;
      var again := total >= LIMIT_GLOBAL_REPEAT && Recent(rows, MailClient(client), now) > 0;
      if total >= LIMIT_GLOBAL || again {
        return Some(MailAll);
      }
      CountAll(MailCounters(address, client), now);
      return None;
    }

    method CountAll(counters: seq<Counter>, now: Time)
      modifies this
      ensures rows == old(rows) + Counted(counters, now)
    {
      for i := 0 to |counters|
        invariant rows == old(rows) + Counted(counters, now)[..i]
      {
        Count(counters[i], now);
        assert Counted(counters, now)[..i + 1] == Counted(counters, now)[..i] + [Row(counters[i], now)];
      }
    }

    /** `_login_gate`: the first wait that is not over, or 0. */
    method LoginGate(address: string, client: string, session: bool, now: Time) returns (wait: nat)
      ensures wait == 0 <==> GateOpen(rows, address, client, session, now)
      ensures wait > 0 ==> exists i :: 0 <= i < |Gates(address, client, session)|
                                       && wait == GateWait(rows, Gates(address, client, session)[i], now)
    {
      var gates := Gates(address, client, session);
      for i := 0 to |gates|
        invariant forall j :: 0 <= j < i ==> GateWait(rows, gates[j], now) == 0
      {
        wait := GateWait(rows, gates[i], now);
        if wait > 0 {
          return;
        }
      }
      return 0;
    }

    /** `_login_failed`. */
    method LoginFailed(address: string, client: string, code: bool, now: Time)
      modifies this
      ensures rows == old(rows) + Counted(FailureCounters(address, client, code), now)
    {
      CountAll(FailureCounters(address, client, code), now);
    }

    /** `_login_succeeded`. */
    method LoginSucceeded(address: string, client: Option<string>)
      modifies this
      ensures rows == Cleared(old(rows), address, client)
      ensures ForgetsOnly(old(rows), rows, address, client)
    {
      forall c, t {
        ClearedReads(rows, address, client, c, t);
      }
      rows := Cleared(rows, address, client);
    }

    method Prune(now: Time)
      modifies this
      ensures rows == Pruned(old(rows), now)
    {
      rows := Pruned(rows, now);
    }
  }
}
