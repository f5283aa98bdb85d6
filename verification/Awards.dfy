/**
  The winners of result notices and the rows they leave (backend/dgate/awards.py, `read_award`,
  `store_notice`).

  What a winner's name resolves to, and what its name says of persons and contacts, are given.
 */
module Awards {
  import opened Wrappers

  type Notice = int
  type Org = int

  // ------------------------------------------------------------------ reading the winners

  /** One tenderer of the record: its name, its country if one can be told, and what the checks of the name say. */
  datatype Tenderer = Tenderer(name: string, country: Option<string>, person: bool, problem: bool)

  datatype Reading = Reading(winners: seq<Tenderer>, seen: nat, persons: nat, problems: nat, noCountry: nat)

  /** The pairs of name and country that won. */
  function Won(tenderers: seq<Tenderer>, won: set<string>): set<(string, Option<string>)> {
    set t | t in tenderers && t.name in won :: (t.name, t.country)
  }

  /** What speaks against keeping a tenderer; the first that applies is the one it is counted under. */
  datatype Verdict = Keep | Person | Problem | NoCountry

  function VerdictOn(t: Tenderer): Verdict {
    if t.person then Person else if t.problem then Problem else if t.country.None? then NoCountry else Keep
  }

  /** A person is counted as one whatever else is said, a problem of the name before a missing country. */
  lemma VerdictExact(t: Tenderer)
    ensures VerdictOn(t) == Person <==> t.person
    ensures VerdictOn(t) == Problem <==> t.problem && !t.person
    ensures VerdictOn(t) == NoCountry <==> t.country.None? && !t.problem && !t.person
    ensures VerdictOn(t) == Keep <==> t.country.Some? && !t.problem && !t.person
  {
  }

  /** The tenderer won, and no earlier one has its name and country. */
  ghost predicate FirstOfPair(tenderers: seq<Tenderer>, won: set<string>, i: nat)
    requires i < |tenderers|
  {
    tenderers[i].name in won && forall j :: 0 <= j < i ==> !SamePair(tenderers[i], tenderers[j])
  }

  predicate SamePair(t: Tenderer, u: Tenderer) {
    t.name == u.name && t.country == u.country
  }

  /** The first tenderers of their pairs, among the first `n`, that the verdict is on. */
  ghost function Judged(tenderers: seq<Tenderer>, won: set<string>, n: nat, verdict: Verdict): set<nat>
    requires n <= |tenderers|
  {
    set i | 0 <= i < n && FirstOfPair(tenderers, won, i) && VerdictOn(tenderers[i]) == verdict
  }

  /** The counts are those of the first `n` tenderers, and the winners kept are theirs. */
  ghost predicate ReadUpTo(tenderers: seq<Tenderer>, won: set<string>, n: nat, r: Reading)
    requires n <= |tenderers|
  {
    && r.persons == |Judged(tenderers, won, n, Person)|
    && r.problems == |Judged(tenderers, won, n, Problem)|
    && r.noCountry == |Judged(tenderers, won, n, NoCountry)|
    && KeptUpTo(tenderers, won, n, r.winners)
  }

  /** Kept are exactly the first tenderers nothing speaks against, each once. */
  ghost predicate KeptUpTo(tenderers: seq<Tenderer>, won: set<string>, n: nat, winners: seq<Tenderer>)
    requires n <= |tenderers|
  {
    AreThose(tenderers, Judged(tenderers, won, n, Keep), winners)
  }

  ghost predicate AreThose(tenderers: seq<Tenderer>, places: set<nat>, winners: seq<Tenderer>)
    requires forall i :: i in places ==> i < |tenderers|
  {
    && |winners| == |places|
    && (forall i :: i in places ==> tenderers[i] in winners)
    && (forall w :: w in winners ==> exists i :: i in places && tenderers[i] == w)
  }

  lemma OneMoreOfThose(tenderers: seq<Tenderer>, places: set<nat>, winners: seq<Tenderer>, n: nat)
    requires n < |tenderers| && n !in places && forall i :: i in places ==> i < |tenderers|
    requires AreThose(tenderers, places, winners)
    ensures AreThose(tenderers, places + {n}, winners + [tenderers[n]])
  {
    var more := winners + [tenderers[n]];
    forall w | w in more ensures exists i :: i in places + {n} && tenderers[i] == w {
      if w == tenderers[n] {
        assert n in places + {n};
      } else {
        var i :| i in places && tenderers[i] == w;
        assert i in places + {n};
      }
    }
  }

  lemma OneMoreJudged(tenderers: seq<Tenderer>, won: set<string>, n: nat, verdict: Verdict)
    requires n < |tenderers|
    ensures var before := Judged(tenderers, won, n, verdict);
            && n !in before
            && Judged(tenderers, won, n + 1, verdict)
               == if FirstOfPair(tenderers, won, n) && VerdictOn(tenderers[n]) == verdict then before + {n} else before
  {
  }

  /** A pair is new exactly at its first tenderer. */
  lemma WonMore(tenderers: seq<Tenderer>, won: set<string>, n: nat)
    requires n < |tenderers|
    ensures var t, before := tenderers[n], Won(tenderers[..n], won);
            && Won(tenderers[..n + 1], won) == before + (if t.name in won then {(t.name, t.country)} else {})
            && (FirstOfPair(tenderers, won, n) <==> t.name in won && (t.name, t.country) !in before)
  {
    var t := tenderers[n];
    assert tenderers[..n + 1] == tenderers[..n] + [t];
    assert forall j :: 0 <= j < n ==> tenderers[j] in tenderers[..n];
    if t.name in won && (t.name, t.country) in Won(tenderers[..n], won) {
      var u :| u in tenderers[..n] && u.name in won && (u.name, u.country) == (t.name, t.country);
      var j :| 0 <= j < n && tenderers[..n][j] == u;
      assert SamePair(t, tenderers[j]);
    }
  }

  /** One more tenderer, seen before or judged. */
  function Judge(r: Reading, t: Tenderer): Reading {
    match VerdictOn(t)
    case Person => r.(seen := r.seen + 1, persons := r.persons + 1)
    case Problem => r.(seen := r.seen + 1, problems := r.problems + 1)
    case NoCountry => r.(seen := r.seen + 1, noCountry := r.noCountry + 1)
    case Keep => r.(seen := r.seen + 1, winners := r.winners + [t])
  }

  /** What is read of the first `n` tenderers. */
  function ReadingOf(tenderers: seq<Tenderer>, won: set<string>, n: nat): Reading
    requires n <= |tenderers|
  {
    if n == 0 then Reading([], 0, 0, 0, 0)
    else
      var t, before := tenderers[n - 1], ReadingOf(tenderers, won, n - 1);
      if t.name in won && (t.name, t.country) !in Won(tenderers[..n - 1], won) then Judge(before, t) else before
  }

  lemma WonCount(tenderers: seq<Tenderer>, won: set<string>, n: nat)
    requires n < |tenderers|
    ensures |Won(tenderers[..n + 1], won)|
            == |Won(tenderers[..n], won)| + (if FirstOfPair(tenderers, won, n) then 1 else 0)
  {
    WonMore(tenderers, won, n);
    var t, before := tenderers[n], Won(tenderers[..n], won);
    if t.name in won && (t.name, t.country) in before {
      assert before + {(t.name, t.country)} == before;
    }
  }

  lemma {:induction false} ReadingCounts(tenderers: seq<Tenderer>, won: set<string>, n: nat)
    requires n <= |tenderers|
    ensures var r := ReadingOf(tenderers, won, n);
            r.seen == |Won(tenderers[..n], won)| && r.seen == |r.winners| + r.persons + r.problems + r.noCountry
  {
    if n > 0 {
      ReadingCounts(tenderers, won, n - 1);
      WonCount(tenderers, won, n - 1);
    } else {
      assert Won(tenderers[..0], won) == {};
    }
  }

  lemma {:induction false} ReadingMeans(tenderers: seq<Tenderer>, won: set<string>, n: nat)
    requires n <= |tenderers|
    ensures ReadUpTo(tenderers, won, n, ReadingOf(tenderers, won, n))
  {
    if n == 0 {
      NothingRead(tenderers, won);
    } else {
      ReadingMeans(tenderers, won, n - 1);
      ReadingTurn(tenderers, won, n - 1);
    }
  }

  lemma ReadingTurn(tenderers: seq<Tenderer>, won: set<string>, n: nat)
    requires n < |tenderers| && ReadUpTo(tenderers, won, n, ReadingOf(tenderers, won, n))
    ensures ReadUpTo(tenderers, won, n + 1, ReadingOf(tenderers, won, n + 1))
  {
    WonMore(tenderers, won, n);
    OneMoreRead(tenderers, won, n, ReadingOf(tenderers, won, n));
  }

  lemma NothingRead(tenderers: seq<Tenderer>, won: set<string>)
    ensures ReadUpTo(tenderers, won, 0, ReadingOf(tenderers, won, 0))
  {
    forall v: Verdict ensures Judged(tenderers, won, 0, v) == {} {
    }
  }

  lemma OneMoreRead(tenderers: seq<Tenderer>, won: set<string>, n: nat, r: Reading)
    requires n < |tenderers| && ReadUpTo(tenderers, won, n, r)
    ensures ReadUpTo(tenderers, won, n + 1, if FirstOfPair(tenderers, won, n) then Judge(r, tenderers[n]) else r)
  {
    OneMoreJudged(tenderers, won, n, Person);
    OneMoreJudged(tenderers, won, n, Problem);
    OneMoreJudged(tenderers, won, n, NoCountry);
    OneMoreKept(tenderers, won, n, r.winners);
  }

  lemma OneMoreKept(tenderers: seq<Tenderer>, won: set<string>, n: nat, winners: seq<Tenderer>)
    requires n < |tenderers| && KeptUpTo(tenderers, won, n, winners)
    ensures var t := tenderers[n];
            KeptUpTo(tenderers, won, n + 1,
                     if FirstOfPair(tenderers, won, n) && VerdictOn(t) == Keep then winners + [t] else winners)
  {
    OneMoreJudged(tenderers, won, n, Keep);
    OneMoreOfThose(tenderers, Judged(tenderers, won, n, Keep), winners, n);
  }

  /** The loop of `read_award`: the first of each winning pair, kept or counted once, under its own reason. */
  method ReadWinners(tenderers: seq<Tenderer>, won: set<string>) returns (r: Reading)
    ensures r.seen == |Won(tenderers, won)|
    ensures r.seen == |r.winners| + r.persons + r.problems + r.noCountry
    ensures ReadUpTo(tenderers, won, |tenderers|, r)
  {
    r := Reading([], 0, 0, 0, 0);
    var seen: set<(string, Option<string>)> := {};
    for i := 0 to |tenderers|
      invariant seen == Won(tenderers[..i], won)
      invariant r == ReadingOf(tenderers, won, i)
    {
      var t := tenderers[i];
      WonMore(tenderers, won, i);
      if t.name in won && (t.name, t.country) !in seen {
        seen := seen + {(t.name, t.country)};
        if t.person {
          r := r.(seen := r.seen + 1, persons := r.persons + 1);
        } else if t.problem {
          r := r.(seen := r.seen + 1, problems := r.problems + 1);
        } else if t.country.None? {
          r := r.(seen := r.seen + 1, noCountry := r.noCountry + 1);
        } else {
          r := r.(seen := r.seen + 1, winners := r.winners + [t]);
        }
      }
    }
    assert tenderers[..|tenderers|] == tenderers;
    ReadingCounts(tenderers, won, |tenderers|);
    ReadingMeans(tenderers, won, |tenderers|);
  }

  // ------------------------------------------------------------------ the award rows

  /** What is stated of the amount: the figure, its currency, its kind, what was set aside and why. */
  datatype Worth = Worth(amount: Option<real>, currency: Option<string>, kind: Option<string>,
                         setAside: Option<real>, reason: Option<string>)

  const UNSTATED := Worth(None, None, None, None, None)

  datatype Fate = BuyersOwn | Unresolved | For(org: Org)

  /** A winner as it is stored: as stated, its worth, and what its name came to. */
  datatype Winner = Winner(name: string, worth: Worth, fate: Fate)

  datatype Award = Award(name: string, winnersSeen: nat, worth: Worth, live: bool)

  /** One read of a notice; `hash` is stated where the notice may be read again. */
  datatype Read = Read(notice: Notice, winners: seq<Winner>, seen: nat, hash: Option<string>)

  type Rows = map<(Notice, Org), Award>

  datatype Counts = Counts(added: nat, again: nat, superseded: nat, kept: nat, buyers: nat, unresolved: nat)

  const NONE_YET := Counts(0, 0, 0, 0, 0, 0)

  /** The row of a winner that is kept: inserted, or current again; its worth where this read decides it. */
  function Named(rows: Rows, read: Read, w: Winner, org: Org): Rows {
    var held := if (read.notice, org) in rows then rows[(read.notice, org)] else Award(w.name, read.seen, UNSTATED, true);
    var worth := if read.hash.Some? || w.worth.kind.Some? then w.worth else held.worth;
    rows[(read.notice, org) := held.(live := true, worth := worth)]
  }

  /** The rows once the first `n` winners are in. */
  function NamedBy(rows: Rows, read: Read, n: nat): Rows
    requires n <= |read.winners|
  {
    if n == 0 then rows
    else
      var before, w := NamedBy(rows, read, n - 1), read.winners[n - 1];
      if w.fate.For? then Named(before, read, w, w.fate.org) else before
  }

  function OrgsOf(winners: seq<Winner>): set<Org> {
    set w | w in winners && w.fate.For? :: w.fate.org
  }

  /** A hashed read supersedes the rows of the notice it no longer names. */
  function Superseded(rows: Rows, notice: Notice, orgs: set<Org>): Rows {
    map k | k in rows :: if k.0 == notice && k.1 !in orgs then rows[k].(live := false) else rows[k]
  }

  function Stored(rows: Rows, read: Read): Rows {
    var named := NamedBy(rows, read, |read.winners|);
    if read.hash.Some? then Superseded(named, read.notice, OrgsOf(read.winners)) else named
  }

  function Live(rows: Rows): set<(Notice, Org)> {
    set k | k in rows && rows[k].live
  }

  /** The row of a notice itself. */
  datatype NoticeRow = NoticeRow(seen: nat, kept: nat, hash: Option<string>)

  lemma OneMore(winners: seq<Winner>, i: nat)
    requires i < |winners|
    ensures winners[..i + 1] == winners[..i] + [winners[i]]
    ensures OrgsOf(winners[..i + 1])
            == OrgsOf(winners[..i]) + (if winners[i].fate.For? then {winners[i].fate.org} else {})
    ensures NoneTwice(winners[..i + 1])
            <==> NoneTwice(winners[..i]) && (winners[i].fate.For? ==> winners[i].fate.org !in OrgsOf(winners[..i]))
  {
    assert winners[..i + 1] == winners[..i] + [winners[i]];
    KeptMore(winners[..i], winners[i]);
    OnceMore(winners[..i], winners[i]);
    if winners[i].fate.For? {
      OrgsMeans(winners[..i], winners[i].fate.org);
    }
  }

  lemma OrgsMeans(winners: seq<Winner>, org: Org)
    ensures org in OrgsOf(winners) <==> For(org) in FatesOf(winners)
  {
    if org in OrgsOf(winners) {
      var w :| w in winners && w.fate == For(org);
      var j :| 0 <= j < |winners| && winners[j] == w;
      assert FatesOf(winners)[j] == For(org);
    }
  }

  ghost function FatesOf(winners: seq<Winner>): seq<Fate> {
    seq(|winners|, i requires 0 <= i < |winners| => winners[i].fate)
  }

  lemma OnceMore(before: seq<Winner>, w: Winner)
    ensures NoneTwice(before + [w]) <==> NoneTwice(before) && (w.fate.For? ==> w.fate !in FatesOf(before))
  {
    var now := before + [w];
    assert forall a :: 0 <= a < |before| ==> now[a] == before[a] && FatesOf(before)[a] == before[a].fate;
    assert now[|before|] == w;
  }

  lemma LiveOnceNamed(rows: Rows, read: Read, w: Winner, org: Org)
    ensures Named(rows, read, w, org).Keys == rows.Keys + {(read.notice, org)}
    ensures Live(Named(rows, read, w, org)) == Live(rows) + {(read.notice, org)}
  {
  }

  lemma OneMoreCount(keys: set<(Notice, Org)>, key: (Notice, Org))
    ensures |keys + {key}| == |keys| + (if key in keys then 0 else 1)
  {
    if key in keys {
      assert keys + {key} == keys;
    }
  }

  lemma NamedCounts(rows: Rows, read: Read, w: Winner, org: Org)
    ensures var key, next := (read.notice, org), Named(rows, read, w, org);
            && |next| == |rows| + (if key in rows then 0 else 1)
            && |Live(next)| == |Live(rows)| + (if key in rows && rows[key].live then 0 else 1)
  {
    var key, next := (read.notice, org), Named(rows, read, w, org);
    LiveOnceNamed(rows, read, w, org);
    assert |next| == |next.Keys| && |rows| == |rows.Keys|;
    OneMoreCount(rows.Keys, key);
    OneMoreCount(Live(rows), key);
  }

  lemma SupersededCounts(rows: Rows, notice: Notice, orgs: set<Org>, gone: set<(Notice, Org)>)
    requires forall k :: k in gone <==> k in rows && k.0 == notice && rows[k].live && k.1 !in orgs
    ensures var next := Superseded(rows, notice, orgs);
            |next| == |rows| && Live(next) == Live(rows) - gone && |Live(next)| + |gone| == |Live(rows)|
  {
    var next := Superseded(rows, notice, orgs);
    assert next.Keys == rows.Keys && |next| == |next.Keys| && |rows| == |rows.Keys|;
    assert Live(next) == Live(rows) - gone;
    assert gone <= Live(rows) && Live(rows) == (Live(rows) - gone) + gone;
  }

  /** The counts of a winner that is kept. */
  function CountsWith(c: Counts, rows: Rows, notice: Notice, org: Org): Counts {
    c.(added := c.added + (if (notice, org) in rows then 0 else 1),
       again := c.again + (if (notice, org) in rows && !rows[(notice, org)].live then 1 else 0),
       kept := c.kept + 1)
  }

  lemma RowsSoFarMore(before: Rows, now: Rows, read: Read, w: Winner, c: Counts)
    requires RowsSoFar(before, now, c) && w.fate.For?
    ensures RowsSoFar(before, Named(now, read, w, w.fate.org), CountsWith(c, now, read.notice, w.fate.org))
  {
    NamedCounts(now, read, w, w.fate.org);
  }

  /** The winners that came to an organisation. */
  function KeptCount(winners: seq<Winner>): nat {
    if winners == [] then 0
    else KeptCount(winners[..|winners| - 1]) + (if winners[|winners| - 1].fate.For? then 1 else 0)
  }

  lemma KeptMore(winners: seq<Winner>, w: Winner)
    ensures KeptCount(winners + [w]) == KeptCount(winners) + (if w.fate.For? then 1 else 0)
    ensures OrgsOf(winners + [w]) == OrgsOf(winners) + (if w.fate.For? then {w.fate.org} else {})
  {
    assert (winners + [w])[..|winners|] == winners;
    assert forall x :: x in winners + [w] <==> x in winners || x == w;
  }

  /** The winners so far are all counted, and these are their organisations. */
  predicate CountedIn(winners: seq<Winner>, c: Counts, current: set<Org>) {
    current == OrgsOf(winners) && |winners| == c.kept + c.buyers + c.unresolved && c.kept == KeptCount(winners)
  }

  lemma CountedMore(winners: seq<Winner>, i: nat, c: Counts, next: Counts, current: set<Org>)
    requires i < |winners| && CountedIn(winners[..i], c, current)
    requires next.kept + next.buyers + next.unresolved == c.kept + c.buyers + c.unresolved + 1
    requires next.kept == c.kept + (if winners[i].fate.For? then 1 else 0)
    ensures CountedIn(winners[..i + 1], next, current + (if winners[i].fate.For? then {winners[i].fate.org} else {}))
  {
    assert winners[..i + 1] == winners[..i] + [winners[i]];
    KeptMore(winners[..i], winners[i]);
  }

  lemma NamedNext(rows: Rows, read: Read, i: nat)
    requires i < |read.winners|
    ensures var before, w := NamedBy(rows, read, i), read.winners[i];
            NamedBy(rows, read, i + 1) == if w.fate.For? then Named(before, read, w, w.fate.org) else before
  {
  }

  /** As many winners are kept as organisations exactly when no two came to one. */
  lemma {:induction false} KeptExact(winners: seq<Winner>)
    ensures |OrgsOf(winners)| <= KeptCount(winners)
    ensures KeptCount(winners) == |OrgsOf(winners)| <==> NoneTwice(winners)
  {
    if winners != [] {
      var n := |winners| - 1;
      KeptExact(winners[..n]);
      OneMore(winners, n);
      assert winners[..n + 1] == winners;
    }
  }

  class AwardTable {
    var rows: Rows
    var notices: map<Notice, NoticeRow>
    var counts: Counts

    constructor ()
      ensures rows == map[] && notices == map[] && counts == NONE_YET && Balanced(rows, counts)
    {
      rows, notices, counts := map[], map[], NONE_YET;
    }

    /** One winner, kept or counted as the buyer's own or as unresolved. */
    method StoreWinner(ghost before: Rows, read: Read, w: Winner, c: Counts) returns (next: Counts)
      requires RowsSoFar(before, rows, c)
      modifies this`rows
      ensures rows == if w.fate.For? then Named(old(rows), read, w, w.fate.org) else old(rows)
      ensures RowsSoFar(before, rows, next)
      ensures next.kept + next.buyers + next.unresolved == c.kept + c.buyers + c.unresolved + 1
      ensures next.kept == c.kept + (if w.fate.For? then 1 else 0)
      ensures next.buyers == c.buyers + (if w.fate.BuyersOwn? then 1 else 0)
    {
      match w.fate
      case BuyersOwn => next := c.(buyers := c.buyers + 1);
      case Unresolved => next := c.(unresolved := c.unresolved + 1);
      case For(org) =>
        RowsSoFarMore(before, rows, read, w, c);
        next := CountsWith(c, rows, read.notice, org);
        rows := Named(rows, read, w, org);
    }

    /** The winners of a read, one after another. */
    method StoreWinners(read: Read) returns (c: Counts, current: set<Org>)
      modifies this`rows
      ensures rows == NamedBy(old(rows), read, |read.winners|)
      ensures RowsSoFar(old(rows), rows, c)
      ensures current == OrgsOf(read.winners)
      ensures |read.winners| == c.kept + c.buyers + c.unresolved && c.kept == KeptCount(read.winners)
    {
      c, current := NONE_YET, {};
      for i := 0 to |read.winners|
        invariant rows == NamedBy(old(rows), read, i)
        invariant RowsSoFar(old(rows), rows, c)
        invariant CountedIn(read.winners[..i], c, current)
      {
        var w := read.winners[i];
        NamedNext(old(rows), read, i);
        var next := StoreWinner(old(rows), read, w, c);
        CountedMore(read.winners, i, c, next, current);
        c := next;
        if w.fate.For? {
          current := current + {w.fate.org};
        }
      }
      assert read.winners[..|read.winners|] == read.winners;
    }

    /** The notice's live rows that name none of these organisations are live no longer. */
    method Supersede(notice: Notice, current: set<Org>) returns (gone: nat)
      modifies this`rows
      ensures rows == Superseded(old(rows), notice, current)
      ensures |rows| == |old(rows)| && |Live(rows)| + gone == |Live(old(rows))|
    {
      var dropped := set k | k in rows && k.0 == notice && rows[k].live && k.1 !in current;
      SupersededCounts(rows, notice, current, dropped);
      gone := |dropped|;
      rows := map k | k in rows :: if k.0 == notice && k.1 !in current then rows[k].(live := false) else rows[k];
    }

    /** `store_notice`. */
    method StoreNotice(read: Read) returns (c: Counts)
      modifies this
      ensures rows == Stored(old(rows), read)
      ensures Accounted(old(rows), rows, read, c)
      ensures counts == Plus(old(counts), c)
      ensures Balanced(old(rows), old(counts)) ==> Balanced(rows, counts)
      ensures notices == if read.notice in old(notices) && read.hash.None? then old(notices)
                         else old(notices)[read.notice := NoticeRow(read.seen, c.kept, read.hash)]
    {
      var current;
      c, current := StoreWinners(read);
      KeptExact(read.winners);
      if read.hash.Some? {
        var gone := Supersede(read.notice, current);
        c := c.(superseded := gone);
      }
      if read.notice !in notices || read.hash.Some? {
        notices := notices[read.notice := NoticeRow(read.seen, c.kept, read.hash)];
      }
      counts := Plus(counts, c);
    }
  }

  function Plus(a: Counts, b: Counts): Counts {
    Counts(a.added + b.added, a.again + b.again, a.superseded + b.superseded, a.kept + b.kept, a.buyers + b.buyers,
           a.unresolved + b.unresolved)
  }

  /** The counters of all reads account for the table: its rows were added, its live rows were added or came
      back and were not superseded. */
  ghost predicate Balanced(rows: Rows, counts: Counts) {
    |rows| == counts.added && |Live(rows)| + counts.superseded == counts.added + counts.again
  }

  /** The counters account for every winner, every row and every live row. */
  ghost predicate Accounted(before: Rows, after: Rows, read: Read, c: Counts) {
    && |read.winners| == c.kept + c.buyers + c.unresolved
    && |after| == |before| + c.added
    && |Live(after)| + c.superseded == |Live(before)| + c.added + c.again
    && (c.kept == |OrgsOf(read.winners)| <==> NoneTwice(read.winners))
    && (read.hash.None? ==> c.superseded == 0)
  }

  /** No two winners of the read came to one organisation. */
  ghost predicate NoneTwice(winners: seq<Winner>) {
    forall i, j :: 0 <= i < j < |winners| && winners[i].fate.For? && winners[j].fate.For? ==> winners[i].fate != winners[j].fate
  }

  ghost predicate RowsSoFar(before: Rows, now: Rows, c: Counts) {
    && c.superseded == 0
    && |now| == |before| + c.added
    && |Live(now)| == |Live(before)| + c.added + c.again
  }

  // ------------------------------------------------------------------ runs of reads

  function Run(rows: Rows, history: seq<Read>): Rows
    decreases |history|
  {
    if history == [] then rows else Stored(Run(rows, history[..|history| - 1]), history[|history| - 1])
  }

  lemma {:induction false} NamedRows(rows: Rows, read: Read, n: nat, k: (Notice, Org))
    requires n <= |read.winners|
    ensures var next := NamedBy(rows, read, n);
            && (k in next <==> k in rows || (k.0 == read.notice && k.1 in OrgsOf(read.winners[..n])))
            && (k in next ==> (next[k].live <==> (k in rows && rows[k].live)
                                                 || (k.0 == read.notice && k.1 in OrgsOf(read.winners[..n]))))
            && (k in rows ==> next[k].name == rows[k].name && next[k].winnersSeen == rows[k].winnersSeen)
            && (k in rows && !(k.0 == read.notice && k.1 in OrgsOf(read.winners[..n])) ==> next[k] == rows[k])
  {
    if n > 0 {
      NamedRows(rows, read, n - 1, k);
      OneMore(read.winners, n - 1);
    }
  }

  /** One read: its winners are live, a hashed one leaves no other winner of the notice live, no row goes,
      what a row stated first stays, and no other notice moves. */
  lemma StoredRows(rows: Rows, read: Read, k: (Notice, Org))
    ensures var next, named := Stored(rows, read), k.0 == read.notice && k.1 in OrgsOf(read.winners);
            && (k in next <==> k in rows || named)
            && (k in next ==> (next[k].live <==> named || (k in rows && rows[k].live
                                                            && (read.hash.None? || k.0 != read.notice))))
            && (k in rows ==> next[k].name == rows[k].name && next[k].winnersSeen == rows[k].winnersSeen)
            && (k in rows && k.0 != read.notice ==> next[k] == rows[k])
  {
    assert read.winners[..|read.winners|] == read.winners;
    NamedRows(rows, read, |read.winners|, k);
  }

  /** The read names the organisation among the notice's winners. */
  predicate Names(read: Read, k: (Notice, Org)) {
    read.notice == k.0 && k.1 in OrgsOf(read.winners)
  }

  /** Some read named it, and every later hashed read of the notice still did. */
  ghost predicate StillNamed(history: seq<Read>, k: (Notice, Org)) {
    exists i :: 0 <= i < |history| && Names(history[i], k) && NeverDropped(history, i, k)
  }

  ghost predicate NeverDropped(history: seq<Read>, i: nat, k: (Notice, Org)) {
    forall j :: i < j < |history| && history[j].notice == k.0 && history[j].hash.Some? ==> Names(history[j], k)
  }

  /** Over every run of reads an award is live exactly when the reads still name it, whatever was named,
      dropped and named again before; and it has a row exactly when some read named it. */
  lemma {:induction false} LiveExact(history: seq<Read>, k: (Notice, Org))
    ensures k in Live(Run(map[], history)) <==> StillNamed(history, k)
    ensures k in Run(map[], history) <==> EverNamed(history, k)
    decreases |history|
  {
    if history != [] {
      var n := |history| - 1;
      var init, last := history[..n], history[n];
      LiveExact(init, k);
      StoredRows(Run(map[], init), last, k);
      NamedUpTo(history, k);
      StillNamedUpTo(history, k);
    }
  }

  ghost predicate EverNamed(history: seq<Read>, k: (Notice, Org)) {
    exists i :: 0 <= i < |history| && Names(history[i], k)
  }

  lemma NamedUpTo(history: seq<Read>, k: (Notice, Org))
    requires history != []
    ensures EverNamed(history, k) <==> Names(history[|history| - 1], k) || EverNamed(history[..|history| - 1], k)
  {
    var init := history[..|history| - 1];
    if i :| 0 <= i < |history| && Names(history[i], k) && i < |init| {
      assert Names(init[i], k);
    }
    if i :| 0 <= i < |init| && Names(init[i], k) {
      assert Names(history[i], k);
    }
  }

  lemma StillNamedUpTo(history: seq<Read>, k: (Notice, Org))
    requires history != []
    ensures var init, last := history[..|history| - 1], history[|history| - 1];
            StillNamed(history, k)
            <==> Names(last, k) || (StillNamed(init, k) && (last.hash.None? || last.notice != k.0))
  {
    var n := |history| - 1;
    var init, last := history[..n], history[n];
    if Names(last, k) {
      assert Names(history[n], k) && NeverDropped(history, n, k);
    } else if StillNamed(history, k) {
      var i :| 0 <= i < |history| && Names(history[i], k) && NeverDropped(history, i, k);
      assert i < n;
      assert NeverDropped(init, i, k);
      assert Names(init[i], k);
    }
    if StillNamed(init, k) && (last.hash.None? || last.notice != k.0) {
      var i :| 0 <= i < |init| && Names(init[i], k) && NeverDropped(init, i, k);
      forall j | i < j < |history| && history[j].notice == k.0 && history[j].hash.Some? ensures Names(history[j], k) {
        assert j < n && init[j] == history[j];
      }
      assert Names(history[i], k) && NeverDropped(history, i, k);
    }
  }

  /** No run deletes a row or changes what it stated first. */
  lemma {:induction false} RowsStay(rows: Rows, history: seq<Read>, k: (Notice, Org))
    requires k in rows
    ensures k in Run(rows, history)
    ensures Run(rows, history)[k].name == rows[k].name && Run(rows, history)[k].winnersSeen == rows[k].winnersSeen
    decreases |history|
  {
    if history != [] {
      RowsStay(rows, history[..|history| - 1], k);
      StoredRows(Run(rows, history[..|history| - 1]), history[|history| - 1], k);
    }
  }

  /** The first winner of the read that came to the organisation. */
  ghost predicate FirstNamed(read: Read, org: Org, i: nat) {
    i < |read.winners| && read.winners[i].fate == For(org) && forall j :: 0 <= j < i ==> read.winners[j].fate != For(org)
  }

  lemma {:induction false} FirstStated(rows: Rows, read: Read, n: nat, org: Org, i: nat)
    requires n <= |read.winners| && FirstNamed(read, org, i) && (read.notice, org) !in rows
    ensures var k, next := (read.notice, org), NamedBy(rows, read, n);
            if n <= i then k !in next
            else k in next && next[k].name == read.winners[i].name && next[k].winnersSeen == read.seen
  {
    if n > 0 {
      FirstStated(rows, read, n - 1, org, i);
    }
  }

  /** A new row states the name of the first winner that came to its organisation and how many winners its first read
      saw, and over every run that stays. */
  lemma FirstReadStands(history: seq<Read>, h: nat, org: Org, i: nat)
    requires h < |history| && FirstNamed(history[h], org, i)
    requires forall j :: 0 <= j < h ==> !Names(history[j], (history[h].notice, org))
    ensures var k, rows := (history[h].notice, org), Run(map[], history);
            k in rows && rows[k].name == history[h].winners[i].name && rows[k].winnersSeen == history[h].seen
  {
    var k, before, read := (history[h].notice, org), Run(map[], history[..h]), history[h];
    NotYetNamed(history, h, k);
    FirstRead(before, read, org, i);
    RunThenRead(history, h);
    RunGoesOn(map[], history, h + 1);
    RowsStay(Stored(before, read), history[h + 1..], k);
  }

  lemma NotYetNamed(history: seq<Read>, h: nat, k: (Notice, Org))
    requires h <= |history| && forall j :: 0 <= j < h ==> !Names(history[j], k)
    ensures k !in Run(map[], history[..h])
  {
    LiveExact(history[..h], k);
  }

  lemma FirstRead(rows: Rows, read: Read, org: Org, i: nat)
    requires FirstNamed(read, org, i) && (read.notice, org) !in rows
    ensures var k, next := (read.notice, org), Stored(rows, read);
            k in next && next[k].name == read.winners[i].name && next[k].winnersSeen == read.seen
  {
    FirstStated(rows, read, |read.winners|, org, i);
  }

  lemma RunThenRead(history: seq<Read>, h: nat)
    requires h < |history|
    ensures Run(map[], history[..h + 1]) == Stored(Run(map[], history[..h]), history[h])
  {
    var now := history[..h + 1];
    assert now[..|now| - 1] == history[..h] && now[|now| - 1] == history[h];
  }

  lemma {:induction false} RunGoesOn(rows: Rows, history: seq<Read>, h: nat)
    requires h <= |history|
    ensures Run(rows, history) == Run(Run(rows, history[..h]), history[h..])
    decreases |history| - h
  {
    if h == |history| {
      assert history[..h] == history && history[h..] == [];
    } else {
      var n := |history| - 1;
      RunGoesOn(rows, history[..n], h);
      var rest := history[h..];
      assert history[..n][..h] == history[..h];
      assert rest[..|rest| - 1] == history[..n][h..] && rest[|rest| - 1] == history[n];
    }
  }

  // ------------------------------------------------------------------ what an award is worth, and reading twice

  /** What a row is worth once the first `n` winners are in: the last winner of the organisation that decides. */
  function Decided(read: Read, n: nat, org: Org, held: Worth): Worth
    requires n <= |read.winners|
  {
    if n == 0 then held
    else
      var w := read.winners[n - 1];
      if w.fate == For(org) && (read.hash.Some? || w.worth.kind.Some?) then w.worth
      else Decided(read, n - 1, org, held)
  }

  lemma {:induction false} NamedWorth(rows: Rows, read: Read, n: nat, k: (Notice, Org))
    requires n <= |read.winners| && k in NamedBy(rows, read, n)
    ensures k.0 == read.notice ==>
              NamedBy(rows, read, n)[k].worth == Decided(read, n, k.1, if k in rows then rows[k].worth else UNSTATED)
  {
    if n > 0 {
      NamedRows(rows, read, n - 1, k);
      if k in NamedBy(rows, read, n - 1) {
        NamedWorth(rows, read, n - 1, k);
      } else {
        NeverNamed(read, n - 1, k.1, UNSTATED);
      }
    }
  }

  lemma {:induction false} NeverNamed(read: Read, n: nat, org: Org, held: Worth)
    requires n <= |read.winners| && org !in OrgsOf(read.winners[..n])
    ensures Decided(read, n, org, held) == held
  {
    if n > 0 {
      OneMore(read.winners, n - 1);
      NeverNamed(read, n - 1, org, held);
    }
  }

  /** The read decides the worth whatever was held, or leaves whatever was held. */
  lemma {:induction false} DecidedOrHeld(read: Read, n: nat, org: Org, held: Worth, other: Worth)
    requires n <= |read.winners|
    ensures || Decided(read, n, org, held) == Decided(read, n, org, other)
            || (Decided(read, n, org, held) == held && Decided(read, n, org, other) == other)
  {
    if n > 0 {
      DecidedOrHeld(read, n - 1, org, held, other);
    }
  }

  lemma StoredWorth(rows: Rows, read: Read, k: (Notice, Org))
    requires k in Stored(rows, read)
    ensures k.0 == read.notice ==>
              Stored(rows, read)[k].worth == Decided(read, |read.winners|, k.1, if k in rows then rows[k].worth else UNSTATED)
  {
    NamedWorth(rows, read, |read.winners|, k);
  }

  /** Storing a read a second time changes no row. */
  lemma ReadingTwice(rows: Rows, read: Read)
    ensures Stored(Stored(rows, read), read) == Stored(rows, read)
  {
    var once := Stored(rows, read);
    var twice := Stored(once, read);
    forall k ensures k in once <==> k in twice {
      StoredRows(rows, read, k);
      StoredRows(once, read, k);
    }
    forall k | k in once ensures once[k] == twice[k] {
      SameRowTwice(rows, read, k);
    }
  }

  lemma SameRowTwice(rows: Rows, read: Read, k: (Notice, Org))
    requires k in Stored(rows, read)
    ensures k in Stored(Stored(rows, read), read) && Stored(Stored(rows, read), read)[k] == Stored(rows, read)[k]
  {
    var once := Stored(rows, read);
    StoredRows(rows, read, k);
    StoredRows(once, read, k);
    StoredWorth(rows, read, k);
    StoredWorth(once, read, k);
    DecidedOrHeld(read, |read.winners|, k.1, if k in rows then rows[k].worth else UNSTATED, once[k].worth);
  }
}
