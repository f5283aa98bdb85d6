/**
  Who a company competes with, and its share (backend/dgate/competition.py, `_Index`, `analyse`).

  A row is one contract and one of its winners. Amounts are exact numbers here and stay unrounded.
 */
module Competition {
  import opened Wrappers

  const COMPETITORS: nat := 20

  datatype Row = Row(org: int, head: Option<int>, country: string, codes: seq<string>, k: int, cur: Option<string>, amt: real)

  /** One buyer and one CPV class. */
  type Market = (int, string)

  datatype Key = OfClass(class_: string) | OfCountry(country: string)

  /** Which rows are meant: a winner's, a buyer's, a slice's, or a winner's in a slice. */
  datatype By = Winner(org: int) | Buyer(head: int) | Within(key: Key) | WinnerWithin(who: int, there: Key)

  predicate Digits(s: string) {
    forall j :: 0 <= j < |s| ==> '0' <= s[j] <= '9'
  }

  function Classes(codes: seq<string>): set<string> {
    set c | c in codes && |c| >= 4 && Digits(c[..4]) :: c[..4]
  }

  function KeysOf(row: Row): set<Key> {
    (set c | c in Classes(row.codes) :: OfClass(c)) + (if row.country != "" then {OfCountry(row.country)} else {})
  }

  predicate IsDigit(c: char) {
    '0' <= c <= '9'
  }

  /** A class is four digits that some code begins with. */
  lemma ClassesExact(codes: seq<string>, c: string)
    ensures c in Classes(codes)
            <==> |c| == 4 && IsDigit(c[0]) && IsDigit(c[1]) && IsDigit(c[2]) && IsDigit(c[3])
                 && exists code :: code in codes && c <= code
  {
    if exists code :: code in codes && c <= code {
      var code :| code in codes && c <= code;
      assert |c| == 4 ==> code[..4] == c;
    }
  }

  /** The slices of a row: its classes and, where one is stated, its country. */
  lemma KeysExact(row: Row, key: Key)
    ensures key in KeysOf(row) <==> if key.OfClass? then key.class_ in Classes(row.codes)
                                    else key.country == row.country && row.country != ""
  {
  }

  predicate Is(row: Row, want: By) {
    match want
    case Winner(org) => row.org == org
    case Buyer(head) => row.head == Some(head)
    case Within(key) => key in KeysOf(row)
    case WinnerWithin(who, there) => row.org == who && there in KeysOf(row)
  }

  // ------------------------------------------------------------------ the plain scan

  predicate InRange(rows: seq<Row>, at: seq<nat>) {
    forall j :: 0 <= j < |at| ==> at[j] < |rows|
  }

  /** The rows meant among the first `n`, in order. */
  function Positions(rows: seq<Row>, want: By, n: nat): (r: seq<nat>)
    requires n <= |rows|
    ensures InRange(rows, r)
  {
    if n == 0 then []
    else if Is(rows[n - 1], want) then Positions(rows, want, n - 1) + [n - 1]
    else Positions(rows, want, n - 1)
  }

  predicate Rising(r: seq<nat>) {
    forall a, b :: 0 <= a < b < |r| ==> r[a] < r[b]
  }

  lemma AppendedRises(r: seq<nat>, n: nat)
    requires Rising(r) && forall i :: i in r ==> i < n
    ensures Rising(r + [n])
    ensures forall i :: i in r + [n] <==> i in r || i == n
  {
    assert forall j :: 0 <= j < |r| ==> r[j] in r;
  }

  lemma {:induction false} PositionsAre(rows: seq<Row>, want: By, n: nat)
    requires n <= |rows|
    ensures forall i: nat :: i in Positions(rows, want, n) <==> i < n && Is(rows[i], want)
    ensures Rising(Positions(rows, want, n))
  {
    if n > 0 {
      PositionsAre(rows, want, n - 1);
      AppendedRises(Positions(rows, want, n - 1), n - 1);
    }
  }

  function Sum(rows: seq<Row>, at: seq<nat>, cur: string): real
    requires InRange(rows, at)
  {
    if at == [] then 0.0
    else Sum(rows, at[..|at| - 1], cur) + (if rows[at[|at| - 1]].cur == Some(cur) then rows[at[|at| - 1]].amt else 0.0)
  }

  function Count(rows: seq<Row>, at: seq<nat>, cur: string): nat
    requires InRange(rows, at)
  {
    if at == [] then 0
    else Count(rows, at[..|at| - 1], cur) + (if rows[at[|at| - 1]].cur == Some(cur) then 1 else 0)
  }

  /** The same sums over the first `n` rows, straight from the table. */
  function Total(rows: seq<Row>, want: By, cur: string, n: nat): real
    requires n <= |rows|
  {
    if n == 0 then 0.0
    else Total(rows, want, cur, n - 1) + (if Is(rows[n - 1], want) && rows[n - 1].cur == Some(cur) then rows[n - 1].amt else 0.0)
  }

  function Number(rows: seq<Row>, want: By, cur: string, n: nat): nat
    requires n <= |rows|
  {
    if n == 0 then 0
    else Number(rows, want, cur, n - 1) + (if Is(rows[n - 1], want) && rows[n - 1].cur == Some(cur) then 1 else 0)
  }

  lemma SumsGrow(rows: seq<Row>, at: seq<nat>, cur: string, i: nat)
    requires InRange(rows, at) && i < |rows|
    ensures Sum(rows, at + [i], cur) == Sum(rows, at, cur) + (if rows[i].cur == Some(cur) then rows[i].amt else 0.0)
    ensures Count(rows, at + [i], cur) == Count(rows, at, cur) + (if rows[i].cur == Some(cur) then 1 else 0)
  {
  }

  lemma {:induction false} ListedSums(rows: seq<Row>, want: By, cur: string, n: nat)
    requires n <= |rows|
    ensures Sum(rows, Positions(rows, want, n), cur) == Total(rows, want, cur, n)
    ensures Count(rows, Positions(rows, want, n), cur) == Number(rows, want, cur, n)
  {
    if n > 0 {
      var before := Positions(rows, want, n - 1);
      ListedSums(rows, want, cur, n - 1);
      SumsGrow(rows, before, cur, n - 1);
      if Is(rows[n - 1], want) {
        assert Positions(rows, want, n) == before + [n - 1];
      } else {
        assert Positions(rows, want, n) == before;
      }
    }
  }

  function Contracts(rows: seq<Row>, at: seq<nat>): set<int>
    requires InRange(rows, at)
  {
    set j | 0 <= j < |at| :: rows[at[j]].k
  }

  function RowMarkets(row: Row): set<Market> {
    if row.head.None? then {} else set c | c in Classes(row.codes) :: (row.head.value, c)
  }

  /** A row is in the market of its buyer and each of its classes, and in none without a buyer. */
  lemma RowMarketsExact(row: Row, m: Market)
    ensures m in RowMarkets(row) <==> row.head == Some(m.0) && m.1 in Classes(row.codes)
  {
  }

  function Markets(rows: seq<Row>, org: int): set<Market> {
    set i, m | 0 <= i < |rows| && rows[i].org == org && m in RowMarkets(rows[i]) :: m
  }

  /** The rows of `org` in one of the markets. */
  function RowsIn(rows: seq<Row>, org: int, markets: set<Market>): set<nat> {
    set i | 0 <= i < |rows| && rows[i].org == org && RowMarkets(rows[i]) * markets != {}
  }

  /** The contracts of `other` in the markets it shares with `org`, as `org`'s answer counts them. */
  function Overlap(rows: seq<Row>, org: int, other: int): nat {
    |RowsIn(rows, other, Markets(rows, org))|
  }

  function Shared(rows: seq<Row>, org: int, other: int): set<Market> {
    Markets(rows, org) * Markets(rows, other)
  }

  /** `org`'s own contracts in the markets shared with `other`, as `org`'s answer counts them. */
  function Ours(rows: seq<Row>, org: int, other: int): nat {
    |RowsIn(rows, org, Shared(rows, org, other))|
  }

  // ------------------------------------------------------------------ the index

  datatype Slice = Slice(contracts: set<int>, values: map<string, (real, nat)>)

  function Entered(s: Slice, row: Row): Slice {
    Slice(s.contracts + {row.k},
          if row.cur.None? then s.values
          else var c := row.cur.value;
               var (sum, count) := if c in s.values then s.values[c] else (0.0, 0);
               s.values[c := (sum + row.amt, count + 1)])
  }

  ghost predicate SumsUp(rows: seq<Row>, at: seq<nat>, s: Slice)
    requires InRange(rows, at)
  {
    && s.contracts == Contracts(rows, at)
    && (forall cur :: cur in s.values <==> Count(rows, at, cur) > 0)
    && (forall cur :: cur in s.values ==> s.values[cur] == (Sum(rows, at, cur), Count(rows, at, cur)))
  }

  /** What the index holds under one key once the first `n` rows are in. */
  ghost predicate SliceIs(rows: seq<Row>, slices: map<Key, Slice>, key: Key, n: nat)
    requires n <= |rows|
  {
    && (key in slices <==> Positions(rows, Within(key), n) != [])
    && (key in slices ==> SumsUp(rows, Positions(rows, Within(key), n), slices[key]))
  }

  /** What the index lists under one winner or buyer once the first `n` rows are in. */
  ghost predicate ListIs(rows: seq<Row>, lists: map<int, seq<nat>>, o: int, want: By, n: nat)
    requires n <= |rows|
  {
    && (o in lists <==> Positions(rows, want, n) != [])
    && (o in lists ==> lists[o] == Positions(rows, want, n))
  }

  lemma NothingUnlessValued(rows: seq<Row>, at: seq<nat>, cur: string)
    requires InRange(rows, at) && Count(rows, at, cur) == 0
    ensures Sum(rows, at, cur) == 0.0
  {
  }

  lemma ContractsGrow(rows: seq<Row>, at: seq<nat>, i: nat)
    requires InRange(rows, at) && i < |rows|
    ensures Contracts(rows, at + [i]) == Contracts(rows, at) + {rows[i].k}
  {
    var more := at + [i];
    assert more[|at|] == i;
    forall k | k in Contracts(rows, at) ensures k in Contracts(rows, more) {
      var j :| 0 <= j < |at| && rows[at[j]].k == k;
      assert rows[more[j]].k == k;
    }
  }

  lemma EnteredSumsUp(rows: seq<Row>, at: seq<nat>, s: Slice, i: nat)
    requires InRange(rows, at) && i < |rows| && SumsUp(rows, at, s)
    ensures SumsUp(rows, at + [i], Entered(s, rows[i]))
  {
    var more := at + [i];
    assert more[..|more| - 1] == at;
    ContractsGrow(rows, at, i);
    forall cur: string
      ensures Count(rows, more, cur) == Count(rows, at, cur) + (if rows[i].cur == Some(cur) then 1 else 0)
      ensures Sum(rows, more, cur) == Sum(rows, at, cur) + (if rows[i].cur == Some(cur) then rows[i].amt else 0.0)
      ensures cur !in s.values ==> Sum(rows, at, cur) == 0.0
    {
      if cur !in s.values { NothingUnlessValued(rows, at, cur); }
    }
  }

  function Listed(lists: map<int, seq<nat>>, o: int, i: nat): map<int, seq<nat>> {
    lists[o := (if o in lists then lists[o] else []) + [i]]
  }

  /** The slices with a row entered under the keys given. */
  function SlicesWith(slices: map<Key, Slice>, row: Row, keys: set<Key>): map<Key, Slice> {
    map key | key in slices.Keys + keys ::
      if key in keys then Entered(if key in slices then slices[key] else Slice({}, map[]), row) else slices[key]
  }

  lemma SlicesMore(slices: map<Key, Slice>, row: Row, keys: set<Key>, key: Key)
    requires key !in keys
    ensures var now := SlicesWith(slices, row, keys);
            SlicesWith(slices, row, keys + {key}) == now[key := Entered(if key in now then now[key] else Slice({}, map[]), row)]
  {
  }

  /** The index of the first `n` rows. */
  function WinnersOf(rows: seq<Row>, n: nat): map<int, seq<nat>>
    requires n <= |rows|
  {
    if n == 0 then map[] else Listed(WinnersOf(rows, n - 1), rows[n - 1].org, n - 1)
  }

  function BuyersOf(rows: seq<Row>, n: nat): map<int, seq<nat>>
    requires n <= |rows|
  {
    if n == 0 then map[]
    else if rows[n - 1].head.None? then BuyersOf(rows, n - 1)
    else Listed(BuyersOf(rows, n - 1), rows[n - 1].head.value, n - 1)
  }

  function SlicesOf(rows: seq<Row>, n: nat): map<Key, Slice>
    requires n <= |rows|
  {
    if n == 0 then map[] else SlicesWith(SlicesOf(rows, n - 1), rows[n - 1], KeysOf(rows[n - 1]))
  }

  /** The index lists, under each winner, the winner's rows and no others. */
  lemma {:induction false} WinnerListed(rows: seq<Row>, o: int, n: nat)
    requires n <= |rows|
    ensures ListIs(rows, WinnersOf(rows, n), o, Winner(o), n)
  {
    if n > 0 {
      WinnerListed(rows, o, n - 1);
    }
  }

  lemma {:induction false} BuyerListed(rows: seq<Row>, h: int, n: nat)
    requires n <= |rows|
    ensures ListIs(rows, BuyersOf(rows, n), h, Buyer(h), n)
  {
    if n > 0 {
      BuyerListed(rows, h, n - 1);
    }
  }

  lemma SliceGrows(rows: seq<Row>, slices: map<Key, Slice>, i: nat, key: Key)
    requires i < |rows| && SliceIs(rows, slices, key, i)
    ensures SliceIs(rows, SlicesWith(slices, rows[i], KeysOf(rows[i])), key, i + 1)
  {
    var at := Positions(rows, Within(key), i);
    if key in KeysOf(rows[i]) {
      assert Positions(rows, Within(key), i + 1) == at + [i];
      EnteredSumsUp(rows, at, if key in slices then slices[key] else Slice({}, map[]), i);
    } else {
      assert Positions(rows, Within(key), i + 1) == at;
    }
  }

  /** The index holds, under each class and country, that slice's contracts and value sums. */
  lemma {:induction false} SliceListed(rows: seq<Row>, key: Key, n: nat)
    requires n <= |rows|
    ensures SliceIs(rows, SlicesOf(rows, n), key, n)
  {
    if n > 0 {
      SliceListed(rows, key, n - 1);
      SliceGrows(rows, SlicesOf(rows, n - 1), n - 1, key);
    }
  }

  // ------------------------------------------------------------------ rivals

  datatype Rival = Rival(contracts: nat, shared: set<Market>)

  /** The rivals with one more row counted. */
  function Counted(rivals: map<int, Rival>, org: int, markets: set<Market>, row: Row): map<int, Rival> {
    var hit := RowMarkets(row) * markets;
    if row.org == org || hit == {} then rivals
    else
      var r := if row.org in rivals then rivals[row.org] else Rival(0, {});
      rivals[row.org := Rival(r.contracts + 1, r.shared + hit)]
  }

  function HitsAmong(rows: seq<Row>, o: int, markets: set<Market>, done: set<nat>): set<nat> {
    set i | i in done && i < |rows| && rows[i].org == o && RowMarkets(rows[i]) * markets != {}
  }

  function MarketsAmong(rows: seq<Row>, markets: set<Market>, at: set<nat>): set<Market> {
    set i, m | i in at && i < |rows| && m in RowMarkets(rows[i]) * markets :: m
  }

  /** What is held of `o` once the rows `done` are counted. */
  ghost predicate RivalIs(rows: seq<Row>, org: int, markets: set<Market>, o: int, done: set<nat>, rivals: map<int, Rival>) {
    var at := HitsAmong(rows, o, markets, done);
    && (o in rivals <==> o != org && at != {})
    && (o in rivals ==> rivals[o] == Rival(|at|, MarketsAmong(rows, markets, at)))
  }

  ghost predicate RivalsAre(rows: seq<Row>, org: int, markets: set<Market>, done: set<nat>, rivals: map<int, Rival>) {
    forall o :: RivalIs(rows, org, markets, o, done, rivals)
  }

  lemma HitsGrow(rows: seq<Row>, o: int, markets: set<Market>, done: set<nat>, i: nat)
    requires i < |rows| && i !in done
    ensures var at, hit := HitsAmong(rows, o, markets, done), RowMarkets(rows[i]) * markets;
            HitsAmong(rows, o, markets, done + {i}) == if rows[i].org == o && hit != {} then at + {i} else at
  {
  }

  lemma MarketsGrow(rows: seq<Row>, markets: set<Market>, at: set<nat>, i: nat)
    requires i < |rows|
    ensures MarketsAmong(rows, markets, at + {i}) == MarketsAmong(rows, markets, at) + RowMarkets(rows[i]) * markets
  {
  }

  lemma OneMoreFor(rows: seq<Row>, org: int, markets: set<Market>, o: int, done: set<nat>, rivals: map<int, Rival>, i: nat)
    requires i < |rows| && i !in done && RivalIs(rows, org, markets, o, done, rivals)
    ensures RivalIs(rows, org, markets, o, done + {i}, Counted(rivals, org, markets, rows[i]))
  {
    var at, hit := HitsAmong(rows, o, markets, done), RowMarkets(rows[i]) * markets;
    HitsGrow(rows, o, markets, done, i);
    if rows[i].org == o && hit != {} && o != org {
      MarketsGrow(rows, markets, at, i);
      assert i !in at;
      if at == {} {
        assert MarketsAmong(rows, markets, at) == {};
      }
      assert |at + {i}| == |at| + 1;
    }
  }

  lemma OneMoreCounted(rows: seq<Row>, org: int, markets: set<Market>, done: set<nat>, rivals: map<int, Rival>, i: nat)
    requires i < |rows| && i !in done && RivalsAre(rows, org, markets, done, rivals)
    ensures RivalsAre(rows, org, markets, done + {i}, Counted(rivals, org, markets, rows[i]))
  {
    forall o ensures RivalIs(rows, org, markets, o, done + {i}, Counted(rivals, org, markets, rows[i])) {
      OneMoreFor(rows, org, markets, o, done, rivals, i);
    }
  }

  /** The companies `org` meets in a market. */
  function Rivals(rows: seq<Row>, org: int): set<int> {
    set i | 0 <= i < |rows| && rows[i].org != org && Shared(rows, org, rows[i].org) != {} :: rows[i].org
  }

  lemma SharedIsMet(rows: seq<Row>, org: int, o: int, m: Market)
    requires m in Shared(rows, org, o)
    ensures m in MarketsAmong(rows, Markets(rows, org), RowsIn(rows, o, Markets(rows, org)))
    ensures o != org ==> o in Rivals(rows, org)
  {
    var i :| 0 <= i < |rows| && rows[i].org == o && m in RowMarkets(rows[i]);
    assert m in RowMarkets(rows[i]) * Markets(rows, org);
    assert i in RowsIn(rows, o, Markets(rows, org));
  }

  lemma MeetsIffShares(rows: seq<Row>, org: int, o: int)
    ensures RowsIn(rows, o, Markets(rows, org)) != {} <==> Shared(rows, org, o) != {}
    ensures o in Rivals(rows, org) <==> o != org && Shared(rows, org, o) != {}
    ensures MarketsAmong(rows, Markets(rows, org), RowsIn(rows, o, Markets(rows, org))) == Shared(rows, org, o)
  {
    var ms := Markets(rows, org);
    var at := RowsIn(rows, o, ms);
    forall m | m in Shared(rows, org, o)
      ensures m in MarketsAmong(rows, ms, at) && at != {} && (o != org ==> o in Rivals(rows, org))
    {
      SharedIsMet(rows, org, o, m);
    }
    forall i, m | i in at && m in RowMarkets(rows[i]) * ms ensures m in Shared(rows, org, o) {
    }
    if at != {} {
      var i :| i in at;
      var m :| m in RowMarkets(rows[i]) * ms;
    }
  }

  /** What the scan of the buyers' rows holds in the end. */
  ghost predicate RivalsExact(rows: seq<Row>, org: int, rivals: map<int, Rival>) {
    && rivals.Keys == Rivals(rows, org)
    && forall o :: o in rivals ==> rivals[o] == Rival(Overlap(rows, org, o), Shared(rows, org, o))
  }

  /** Reading only the buyers' lists misses no row: a row in one of the markets has one of their buyers. */
  lemma BuyersSuffice(rows: seq<Row>, org: int, heads: set<int>, done: set<nat>, rivals: map<int, Rival>)
    requires heads == Buyers(Markets(rows, org))
    requires done == set i | 0 <= i < |rows| && rows[i].head.Some? && rows[i].head.value in heads
    requires RivalsAre(rows, org, Markets(rows, org), done, rivals)
    ensures RivalsExact(rows, org, rivals)
  {
    var ms := Markets(rows, org);
    forall o
      ensures o in rivals <==> o in Rivals(rows, org)
      ensures o in rivals ==> rivals[o] == Rival(Overlap(rows, org, o), Shared(rows, org, o))
    {
      assert RivalIs(rows, org, ms, o, done, rivals);
      forall i | i in RowsIn(rows, o, ms) ensures i in done {
        var m :| m in RowMarkets(rows[i]) * ms;
        assert m.0 in heads;
      }
      assert HitsAmong(rows, o, ms, done) == RowsIn(rows, o, ms);
      MeetsIffShares(rows, org, o);
    }
    assert forall o :: o in rivals.Keys <==> o in Rivals(rows, org);
  }

  datatype Competitor = Competitor(org: int, overlap: nat, markets: nat, buyers: nat, ours: nat)

  datatype Answer = Answer(contracts: nat, markets: nat, competitorCount: nat, competitors: seq<Competitor>)

  function Buyers(markets: set<Market>): set<int> {
    set m | m in markets :: m.0
  }

  /** A competitor's line, by the plain scan. */
  function CompetitorOf(rows: seq<Row>, org: int, o: int): Competitor {
    var shared := Shared(rows, org, o);
    Competitor(o, Overlap(rows, org, o), |shared|, |Buyers(shared)|, Ours(rows, org, o))
  }

  /** More contracts in shared markets come first, then more shared markets, then the lower number. */
  predicate Precedes(overlap: nat, markets: nat, o: int, overlap2: nat, markets2: nat, o2: int) {
    overlap > overlap2 || (overlap == overlap2 && (markets > markets2 || (markets == markets2 && o < o2)))
  }

  /** The ranking is a strict order of the competitors: the larger overlap first, of equal ones the one in more markets, of
      equal ones the lower number. */
  lemma RankingExact(x: Competitor, y: Competitor)
    ensures x.overlap > y.overlap ==> Outranks(x, y) && !Outranks(y, x)
    ensures x.overlap == y.overlap && x.markets > y.markets ==> Outranks(x, y) && !Outranks(y, x)
    ensures x.overlap == y.overlap && x.markets == y.markets ==> (Outranks(x, y) <==> x.org < y.org)
  {
  }

  predicate Ahead(rivals: map<int, Rival>, a: int, b: int)
    requires a in rivals && b in rivals
  {
    Precedes(rivals[a].contracts, |rivals[a].shared|, a, rivals[b].contracts, |rivals[b].shared|, b)
  }

  predicate Outranks(x: Competitor, y: Competitor) {
    Precedes(x.overlap, x.markets, x.org, y.overlap, y.markets, y.org)
  }

  /** The first of the ranking, in its order; nobody left out is ahead of one listed. */
  ghost predicate IsTop(rivals: map<int, Rival>, top: seq<int>) {
    && |top| == (if |rivals| < COMPETITORS then |rivals| else COMPETITORS)
    && (forall o :: o in top ==> o in rivals)
    && (forall a, b :: 0 <= a < b < |top| ==> Ahead(rivals, top[a], top[b]))
    && (forall a, o :: 0 <= a < |top| && o in rivals && o !in top ==> Ahead(rivals, top[a], o))
  }

  ghost predicate Won(rows: seq<Row>, org: int) {
    exists i :: 0 <= i < |rows| && rows[i].org == org
  }

  ghost predicate AnswerIs(rows: seq<Row>, org: int, answer: Answer) {
    && answer.contracts == |Positions(rows, Winner(org), |rows|)|
    && answer.markets == |Markets(rows, org)|
    && answer.competitorCount == |Rivals(rows, org)|
    && |answer.competitors| == (if |Rivals(rows, org)| < 20 then |Rivals(rows, org)| else 20)
    && RanksRivals(rows, org, answer.competitors)
  }

  ghost predicate RanksRivals(rows: seq<Row>, org: int, cs: seq<Competitor>) {
    && (forall a :: 0 <= a < |cs| ==> cs[a].org in Rivals(rows, org) && cs[a] == CompetitorOf(rows, org, cs[a].org))
    && (forall a, b :: 0 <= a < b < |cs| ==> Outranks(cs[a], cs[b]))
    && (forall a, o :: 0 <= a < |cs| && o in Rivals(rows, org) && (forall b :: 0 <= b < |cs| ==> cs[b].org != o)
                       ==> Outranks(cs[a], CompetitorOf(rows, org, o)))
  }

  ghost predicate AreLines(rows: seq<Row>, org: int, top: seq<int>, cs: seq<Competitor>) {
    |cs| == |top| && forall a :: 0 <= a < |top| ==> cs[a] == CompetitorOf(rows, org, top[a])
  }

  lemma OneMoreLine(rows: seq<Row>, org: int, top: seq<int>, cs: seq<Competitor>, j: nat)
    requires j < |top| && AreLines(rows, org, top[..j], cs)
    ensures AreLines(rows, org, top[..j + 1], cs + [CompetitorOf(rows, org, top[j])])
  {
    assert top[..j + 1] == top[..j] + [top[j]];
    LinesEndWith(rows, org, top[..j], cs, top[j]);
  }

  lemma LinesEndWith(rows: seq<Row>, org: int, top: seq<int>, cs: seq<Competitor>, o: int)
    requires AreLines(rows, org, top, cs)
    ensures AreLines(rows, org, top + [o], cs + [CompetitorOf(rows, org, o)])
  {
  }

  lemma AheadOutranks(rows: seq<Row>, org: int, rivals: map<int, Rival>, a: int, b: int)
    requires RivalsExact(rows, org, rivals) && a in rivals && b in rivals
    ensures Ahead(rivals, a, b) <==> Outranks(CompetitorOf(rows, org, a), CompetitorOf(rows, org, b))
  {
  }

  lemma LineOutranks(rows: seq<Row>, org: int, rivals: map<int, Rival>, top: seq<int>, cs: seq<Competitor>, a: nat, o: int)
    requires RivalsExact(rows, org, rivals) && AreLines(rows, org, top, cs) && a < |top|
    requires top[a] in rivals && o in rivals && Ahead(rivals, top[a], o)
    ensures Outranks(cs[a], CompetitorOf(rows, org, o))
  {
    AheadOutranks(rows, org, rivals, top[a], o);
  }

  lemma ListedHasLine(rows: seq<Row>, org: int, top: seq<int>, cs: seq<Competitor>, o: int)
    requires AreLines(rows, org, top, cs)
    ensures o in top ==> exists b :: 0 <= b < |cs| && cs[b].org == o
  {
    if o in top {
      var b :| 0 <= b < |top| && top[b] == o;
      assert cs[b].org == o;
    }
  }

  lemma TopOfRivals(rows: seq<Row>, org: int, rivals: map<int, Rival>, top: seq<int>, cs: seq<Competitor>)
    requires RivalsExact(rows, org, rivals) && IsTop(rivals, top) && AreLines(rows, org, top, cs)
    ensures RanksRivals(rows, org, cs)
  {
    forall a, o | 0 <= a < |cs| && o in Rivals(rows, org) && (forall b :: 0 <= b < |cs| ==> cs[b].org != o)
      ensures Outranks(cs[a], CompetitorOf(rows, org, o))
    {
      ListedHasLine(rows, org, top, cs, o);
      assert top[a] in top;
      LineOutranks(rows, org, rivals, top, cs, a, o);
    }
    forall a, b | 0 <= a < b < |cs| ensures Outranks(cs[a], cs[b]) {
      assert top[a] in top && top[b] in top;
      LineOutranks(rows, org, rivals, top, cs, a, top[b]);
    }
    forall a | 0 <= a < |cs| ensures cs[a].org in Rivals(rows, org) && cs[a] == CompetitorOf(rows, org, cs[a].org) {
      assert top[a] in top;
    }
  }

  lemma WonIffListed(rows: seq<Row>, org: int)
    ensures Won(rows, org) <==> Positions(rows, Winner(org), |rows|) != []
  {
    var at := Positions(rows, Winner(org), |rows|);
    PositionsAre(rows, Winner(org), |rows|);
    if at != [] {
      assert at[0] in at;
    }
    if i: nat :| i < |rows| && rows[i].org == org {
      assert i in at;
    }
  }

  function Hits(rows: seq<Row>, at: seq<nat>, markets: set<Market>): nat
    requires InRange(rows, at)
  {
    if at == [] then 0
    else Hits(rows, at[..|at| - 1], markets) + (if RowMarkets(rows[at[|at| - 1]]) * markets != {} then 1 else 0)
  }

  function HitSet(rows: seq<Row>, at: seq<nat>, markets: set<Market>): set<nat> {
    set i | i in at && i < |rows| && RowMarkets(rows[i]) * markets != {}
  }

  lemma HitSetGrows(rows: seq<Row>, at: seq<nat>, markets: set<Market>, i: nat)
    requires i < |rows| && i !in at
    ensures HitSet(rows, at + [i], markets) == HitSet(rows, at, markets) + (if RowMarkets(rows[i]) * markets != {} then {i} else {})
    ensures i !in HitSet(rows, at, markets)
  {
  }

  lemma {:induction false} HitsCount(rows: seq<Row>, at: seq<nat>, markets: set<Market>)
    requires InRange(rows, at) && Rising(at)
    ensures Hits(rows, at, markets) == |HitSet(rows, at, markets)|
  {
    if at != [] {
      var init, i := at[..|at| - 1], at[|at| - 1];
      assert at == init + [i];
      HitsCount(rows, init, markets);
      HitSetGrows(rows, init, markets, i);
    }
  }

  lemma HitsAreRowsIn(rows: seq<Row>, org: int, markets: set<Market>)
    ensures Hits(rows, Positions(rows, Winner(org), |rows|), markets) == |RowsIn(rows, org, markets)|
  {
    var at := Positions(rows, Winner(org), |rows|);
    PositionsAre(rows, Winner(org), |rows|);
    HitsCount(rows, at, markets);
    assert RowsIn(rows, org, markets) == HitSet(rows, at, markets);
  }

  // ------------------------------------------------------------------ shares

  /** Of a winner's rows, those of the slice. */
  function Inside(rows: seq<Row>, at: seq<nat>, key: Key): seq<nat>
    requires InRange(rows, at)
    ensures InRange(rows, Inside(rows, at, key))
  {
    if at == [] then []
    else Inside(rows, at[..|at| - 1], key) + (if key in KeysOf(rows[at[|at| - 1]]) then [at[|at| - 1]] else [])
  }

  lemma InsideGrows(rows: seq<Row>, at: seq<nat>, key: Key, i: nat)
    requires InRange(rows, at) && i < |rows|
    ensures Inside(rows, at + [i], key) == if key in KeysOf(rows[i]) then Inside(rows, at, key) + [i] else Inside(rows, at, key)
  {
  }

  lemma {:induction false} InsideIsBoth(rows: seq<Row>, org: int, key: Key, n: nat)
    requires n <= |rows|
    ensures Inside(rows, Positions(rows, Winner(org), n), key) == Positions(rows, WinnerWithin(org, key), n)
  {
    if n > 0 {
      InsideIsBoth(rows, org, key, n - 1);
      PositionsGrow(rows, Winner(org), n);
      PositionsGrow(rows, WinnerWithin(org, key), n);
      OneMoreInside(rows, Positions(rows, Winner(org), n - 1), key, n - 1, rows[n - 1].org == org);
    } else {
      assert Positions(rows, Winner(org), 0) == [] && Positions(rows, WinnerWithin(org, key), 0) == [];
    }
  }

  lemma OneMoreInside(rows: seq<Row>, at: seq<nat>, key: Key, i: nat, own: bool)
    requires InRange(rows, at) && i < |rows|
    ensures Inside(rows, if own then at + [i] else at, key)
            == if own && key in KeysOf(rows[i]) then Inside(rows, at, key) + [i] else Inside(rows, at, key)
  {
    InsideGrows(rows, at, key, i);
  }

  lemma PositionsGrow(rows: seq<Row>, want: By, n: nat)
    requires 0 < n <= |rows|
    ensures var before := Positions(rows, want, n - 1);
            Positions(rows, want, n) == if Is(rows[n - 1], want) then before + [n - 1] else before
  {
  }

  /** Strings by their first difference, as Python compares them. */
  predicate Before(a: string, b: string) {
    if b == "" then false
    else if a == "" then true
    else if a[0] != b[0] then a[0] < b[0]
    else Before(a[1..], b[1..])
  }

  lemma {:induction false} BeforeIsTotal(a: string, b: string)
    ensures a == b || Before(a, b) || Before(b, a)
  {
    if a != "" && b != "" && a[0] == b[0] {
      BeforeIsTotal(a[1..], b[1..]);
      assert a == [a[0]] + a[1..] && b == [b[0]] + b[1..];
    }
  }

  lemma {:induction false} BeforeIsTransitive(a: string, b: string, c: string)
    requires Before(a, b) && Before(b, c)
    ensures Before(a, c)
  {
    if a != "" && a[0] == b[0] && b[0] == c[0] {
      BeforeIsTransitive(a[1..], b[1..], c[1..]);
    }
  }

  /** Stated by more contracts, or by as many and earlier in the alphabet. */
  predicate Commoner(values: map<string, (real, nat)>, a: string, b: string)
    requires a in values && b in values
  {
    values[a].1 > values[b].1 || (values[a].1 == values[b].1 && Before(a, b))
  }

  ghost predicate Commonest(values: map<string, (real, nat)>, cur: string) {
    cur in values && forall c :: c in values && c != cur ==> Commoner(values, cur, c)
  }

  /** Python's order: the text that ends first, or has the smaller character where the two first differ. */
  lemma {:induction false} BeforeExact(a: string, b: string)
    ensures Before(a, b) <==> exists k :: 0 <= k <= |a| && k < |b| && a[..k] == b[..k] && (k == |a| || a[k] < b[k])
  {
    if a != "" && b != "" && a[0] == b[0] {
      var c, d := a[1..], b[1..];
      BeforeExact(c, d);
      if Before(c, d) {
        var k :| 0 <= k <= |c| && k < |d| && c[..k] == d[..k] && (k == |c| || c[k] < d[k]);
        assert a[..k + 1] == [a[0]] + c[..k] && b[..k + 1] == [b[0]] + d[..k];
      }
      if k :| 0 <= k <= |a| && k < |b| && a[..k] == b[..k] && (k == |a| || a[k] < b[k]) {
        assert k > 0;
        assert c[..k - 1] == a[..k][1..] && d[..k - 1] == b[..k][1..];
      }
    } else if b != "" {
      assert a[..0] == b[..0];
      assert forall k :: 0 < k <= |a| && k < |b| && a[0] != b[0] ==> a[..k][0] != b[..k][0];
    }
  }

  /** The currency of a slice is stated by the most contracts, and is the first in the alphabet of those. */
  lemma CommonestExact(values: map<string, (real, nat)>, cur: string)
    requires cur in values
    ensures Commonest(values, cur) <==>
              forall c :: c in values ==>
                values[c].1 < values[cur].1 || (values[c].1 == values[cur].1 && (c == cur || Before(cur, c)))
  {
  }

  lemma CommonerIsTransitive(values: map<string, (real, nat)>, a: string, b: string, c: string)
    requires a in values && b in values && c in values && Commoner(values, a, b) && Commoner(values, b, c)
    ensures Commoner(values, a, c)
  {
    if values[a].1 == values[c].1 {
      BeforeIsTransitive(a, b, c);
    }
  }

  lemma KeysKnown(rows: seq<Row>, org: int, key: Key)
    requires Positions(rows, WinnerWithin(org, key), |rows|) != []
    ensures Positions(rows, Within(key), |rows|) != [] && Positions(rows, Winner(org), |rows|) != []
  {
    var own := Positions(rows, WinnerWithin(org, key), |rows|);
    PositionsAre(rows, WinnerWithin(org, key), |rows|);
    PositionsAre(rows, Within(key), |rows|);
    PositionsAre(rows, Winner(org), |rows|);
    assert own[0] in own;
    assert own[0] in Positions(rows, Within(key), |rows|) && own[0] in Positions(rows, Winner(org), |rows|);
  }

  datatype Share = Share(contracts: nat, total: nat, money: Option<Money>)

  datatype Money = Money(currency: string, value: real, valued: nat, valueTotal: real, valuedTotal: nat)

  /** A winner's share of a slice, by the plain scan. */
  ghost predicate ShareIs(rows: seq<Row>, org: int, key: Key, share: Share) {
    var all, own, n := Within(key), WinnerWithin(org, key), |rows|;
    && share.contracts == |Positions(rows, own, n)|
    && share.total == |Contracts(rows, Positions(rows, all, n))|
    && (share.money.None? <==> forall cur :: Number(rows, all, cur, n) == 0)
    && (share.money.Some? ==> MoneyIs(rows, all, own, share.money.value))
  }

  /** The money is in the currency most contracts of the slice state, the earliest in the alphabet of those. */
  ghost predicate MoneyIs(rows: seq<Row>, all: By, own: By, m: Money) {
    && m.value == Total(rows, own, m.currency, |rows|) && m.valued == Number(rows, own, m.currency, |rows|)
    && m.valueTotal == Total(rows, all, m.currency, |rows|) && m.valuedTotal == Number(rows, all, m.currency, |rows|)
    && m.valuedTotal > 0
    && forall c :: c != m.currency ==>
         Number(rows, all, c, |rows|) < m.valuedTotal
         || (Number(rows, all, c, |rows|) == m.valuedTotal && Before(m.currency, c))
  }

  /** A slice's sums are the table's. */
  lemma SliceByTable(rows: seq<Row>, key: Key, slice: Slice)
    requires SumsUp(rows, Positions(rows, Within(key), |rows|), slice)
    ensures forall cur :: cur in slice.values <==> Number(rows, Within(key), cur, |rows|) > 0
    ensures forall cur :: cur in slice.values ==>
              slice.values[cur] == (Total(rows, Within(key), cur, |rows|), Number(rows, Within(key), cur, |rows|))
  {
    forall cur: string
      ensures cur in slice.values <==> Number(rows, Within(key), cur, |rows|) > 0
      ensures cur in slice.values ==>
                slice.values[cur] == (Total(rows, Within(key), cur, |rows|), Number(rows, Within(key), cur, |rows|))
    {
      ListedSums(rows, Within(key), cur, |rows|);
    }
  }

  lemma CommonestMoney(rows: seq<Row>, key: Key, slice: Slice, cur: string)
    requires SumsUp(rows, Positions(rows, Within(key), |rows|), slice) && Commonest(slice.values, cur)
    ensures forall c :: c != cur ==>
              Number(rows, Within(key), c, |rows|) < slice.values[cur].1
              || (Number(rows, Within(key), c, |rows|) == slice.values[cur].1 && Before(cur, c))
  {
    SliceByTable(rows, key, slice);
  }

  lemma BuyerKnown(rows: seq<Row>, org: int, head: int)
    requires head in Buyers(Markets(rows, org))
    ensures head in BuyersOf(rows, |rows|)
  {
    var m :| m in Markets(rows, org) && m.0 == head;
    var i :| 0 <= i < |rows| && rows[i].org == org && m in RowMarkets(rows[i]);
    PositionsAre(rows, Buyer(head), |rows|);
    BuyerListed(rows, head, |rows|);
    assert i in Positions(rows, Buyer(head), |rows|);
  }

  class Index {
    const rows: seq<Row>
    var byOrg: map<int, seq<nat>>
    var byHead: map<int, seq<nat>>
    var slices: map<Key, Slice>

    ghost predicate Holds(n: nat)
      requires n <= |rows|
      reads this
    {
      byOrg == WinnersOf(rows, n) && byHead == BuyersOf(rows, n) && slices == SlicesOf(rows, n)
    }

    ghost predicate Valid()
      reads this
    {
      Holds(|rows|)
    }

    /** `_Index`. */
    constructor (body: seq<Row>)
      ensures rows == body && Valid()
    {
      rows := body;
      byOrg, byHead, slices := map[], map[], map[];
      new;
      var i := 0;
      while i < |rows|
        invariant i <= |rows|
        invariant Holds(i)
      {
        byOrg := Listed(byOrg, rows[i].org, i);
        if rows[i].head.Some? {
          byHead := Listed(byHead, rows[i].head.value, i);
        }
        EnterSlices(i);
        i := i + 1;
      }
    }

    method EnterSlices(i: nat)
      requires i < |rows|
      modifies this`slices
      ensures slices == SlicesWith(old(slices), rows[i], KeysOf(rows[i]))
    {
      var left := KeysOf(rows[i]);
      while left != {}
        invariant left <= KeysOf(rows[i])
        invariant slices == SlicesWith(old(slices), rows[i], KeysOf(rows[i]) - left)
        decreases left
      {
        var key :| key in left;
        SlicesMore(old(slices), rows[i], KeysOf(rows[i]) - left, key);
        assert KeysOf(rows[i]) - left + {key} == KeysOf(rows[i]) - (left - {key});
        slices := slices[key := Entered(if key in slices then slices[key] else Slice({}, map[]), rows[i])];
        left := left - {key};
      }
      assert KeysOf(rows[i]) - {} == KeysOf(rows[i]);
    }

    /** One buyer's rows. */
    method CountBuyer(before: map<int, Rival>, org: int, markets: set<Market>, head: int, ghost done: set<nat>)
      returns (rivals: map<int, Rival>)
      requires Valid() && head in byHead
      requires RivalsAre(rows, org, markets, done, before)
      requires forall i :: i in done && i < |rows| ==> rows[i].head != Some(head)
      ensures RivalsAre(rows, org, markets, done + (set i | 0 <= i < |rows| && rows[i].head == Some(head)), rivals)
    {
      BuyerListed(rows, head, |rows|);
      PositionsAre(rows, Buyer(head), |rows|);
      var at := byHead[head];
      rivals := before;
      ghost var now := done;
      var j := 0;
      while j < |at|
        invariant j <= |at|
        invariant now == done + set a | 0 <= a < j :: at[a]
        invariant RivalsAre(rows, org, markets, now, rivals)
      {
        assert at[j] in at;
        OneMoreCounted(rows, org, markets, now, rivals, at[j]);
        rivals := Counted(rivals, org, markets, rows[at[j]]);
        now := now + {at[j]};
        j := j + 1;
      }
      assert now == done + (set i | 0 <= i < |rows| && rows[i].head == Some(head));
    }

    /** The rivals of `org`, from the lists of the buyers it won at. */
    method FindRivals(org: int) returns (rivals: map<int, Rival>)
      requires Valid()
      ensures RivalsExact(rows, org, rivals)
    {
      var markets := Markets(rows, org);
      var heads := Buyers(markets);
      var left := heads;
      rivals := map[];
      ghost var done: set<nat> := {};
      while left != {}
        invariant left <= heads
        invariant done == set i | 0 <= i < |rows| && rows[i].head.Some? && rows[i].head.value in heads - left
        invariant RivalsAre(rows, org, markets, done, rivals)
        decreases left
      {
        var head :| head in left;
        BuyerKnown(rows, org, head);
        rivals := CountBuyer(rivals, org, markets, head, done);
        done := done + set i | 0 <= i < |rows| && rows[i].head == Some(head);
        left := left - {head};
      }
      BuyersSuffice(rows, org, heads, done, rivals);
    }

    /** `org`'s own contracts in the markets it shares with a rival. */
    method CountOurs(org: int, shared: set<Market>) returns (ours: nat)
      requires Valid() && org in byOrg
      ensures ours == |RowsIn(rows, org, shared)|
    {
      WinnerListed(rows, org, |rows|);
      var mine := byOrg[org];
      HitsAreRowsIn(rows, org, shared);
      ours := 0;
      var j := 0;
      while j < |mine|
        invariant j <= |mine|
        invariant ours == Hits(rows, mine[..j], shared)
      {
        assert mine[..j + 1][..j] == mine[..j];
        if RowMarkets(rows[mine[j]]) * shared != {} {
          ours := ours + 1;
        }
        j := j + 1;
      }
      assert mine[..j] == mine;
    }

    /** `sorted(rivals, key=…)[:COMPETITORS]`, one competitor at a time. */
    method Top(org: int, rivals: map<int, Rival>) returns (top: seq<int>)
      ensures IsTop(rivals, top)
    {
      top := [];
      var left := rivals.Keys;
      while |top| < COMPETITORS && left != {}
        invariant forall o :: o in rivals <==> o in left || o in top
        invariant forall o :: o in top ==> o !in left
        invariant |top| + |left| == |rivals|
        invariant |top| <= COMPETITORS && left <= rivals.Keys
        invariant forall a, b :: 0 <= a < b < |top| ==> Ahead(rivals, top[a], top[b])
        invariant forall a, o :: 0 <= a < |top| && o in left ==> Ahead(rivals, top[a], o)
      {
        var best := First(rivals, left);
        top := top + [best];
        left := left - {best};
      }
    }

    method First(rivals: map<int, Rival>, among: set<int>) returns (best: int)
      requires among != {} && among <= rivals.Keys
      ensures best in among && forall o :: o in among && o != best ==> Ahead(rivals, best, o)
    {
      HasMember(among);
      best :| best in among;
      var left := among - {best};
      while left != {}
        invariant left <= among && best in among && best !in left
        invariant forall o :: o in among && o !in left && o != best ==> Ahead(rivals, best, o)
        decreases left
      {
        HasMember(left);
        var o :| o in left;
        if Ahead(rivals, o, best) {
          best := o;
        }
        left := left - {o};
      }
    }

    method Line(org: int, rivals: map<int, Rival>, o: int) returns (line: Competitor)
      requires Valid() && org in byOrg && RivalsExact(rows, org, rivals) && o in rivals
      ensures line == CompetitorOf(rows, org, o)
    {
      var r := rivals[o];
      var ours := CountOurs(org, r.shared);
      line := Competitor(o, r.contracts, |r.shared|, |Buyers(r.shared)|, ours);
    }

    /** The rivals' lines, in the order of the ranking. */
    method Lines(org: int, rivals: map<int, Rival>, top: seq<int>) returns (competitors: seq<Competitor>)
      requires Valid() && org in byOrg && RivalsExact(rows, org, rivals)
      requires forall o :: o in top ==> o in rivals
      ensures AreLines(rows, org, top, competitors)
    {
      competitors := [];
      var j := 0;
      while j < |top|
        invariant j <= |top| && AreLines(rows, org, top[..j], competitors)
      {
        assert top[j] in top;
        OneMoreLine(rows, org, top, competitors, j);
        var line := Line(org, rivals, top[j]);
        competitors := competitors + [line];
        j := j + 1;
      }
      assert top[..j] == top;
    }

    /** `analyse`, up to the counts by country and class: None when `org` has no row. */
    method Analyse(org: int) returns (answer: Option<Answer>)
      requires Valid()
      ensures answer.None? <==> !Won(rows, org)
      ensures answer.Some? ==> AnswerIs(rows, org, answer.value)
    {
      WinnerListed(rows, org, |rows|);
      WonIffListed(rows, org);
      if org !in byOrg {
        return None;
      }
      var rivals := FindRivals(org);
      var top := Top(org, rivals);
      var competitors := Lines(org, rivals, top);
      TopOfRivals(rows, org, rivals, top, competitors);
      answer := Some(Answer(|byOrg[org]|, |Markets(rows, org)|, |rivals|, competitors));
    }

    method CommonestOf(values: map<string, (real, nat)>) returns (cur: string)
      requires values != map[]
      ensures Commonest(values, cur)
    {
      assert values.Keys != {};
      cur :| cur in values;
      var left := values.Keys - {cur};
      while left != {}
        invariant left <= values.Keys && cur in values && cur !in left
        invariant forall c :: c in values && c !in left && c != cur ==> Commoner(values, cur, c)
        decreases left
      {
        var c :| c in left;
        BeforeIsTotal(c, cur);
        if Commoner(values, c, cur) {
          forall d | d in values && d !in left && d != cur ensures Commoner(values, c, d) {
            CommonerIsTransitive(values, c, cur, d);
          }
          cur := c;
        }
        left := left - {c};
      }
    }

    method SumOwn(own: seq<nat>, cur: string) returns (value: real, valued: nat)
      requires InRange(rows, own)
      ensures value == Sum(rows, own, cur) && valued == Count(rows, own, cur)
    {
      value, valued := 0.0, 0;
      var j := 0;
      while j < |own|
        invariant j <= |own|
        invariant value == Sum(rows, own[..j], cur) && valued == Count(rows, own[..j], cur)
      {
        assert own[..j + 1][..j] == own[..j];
        if rows[own[j]].cur == Some(cur) {
          value, valued := value + rows[own[j]].amt, valued + 1;
        }
        j := j + 1;
      }
      assert own[..j] == own;
    }

    /** `share` of a slice the company won in. */
    method ShareOf(org: int, key: Key) returns (share: Share)
      requires Valid() && Positions(rows, WinnerWithin(org, key), |rows|) != []
      ensures ShareIs(rows, org, key, share)
    {
      KeysKnown(rows, org, key);
      SliceListed(rows, key, |rows|);
      WinnerListed(rows, org, |rows|);
      InsideIsBoth(rows, org, key, |rows|);
      var own := Inside(rows, byOrg[org], key);
      var slice := slices[key];
      SliceByTable(rows, key, slice);
      if slice.values == map[] {
        share := Share(|own|, |slice.contracts|, None);
        return;
      }
      var cur := CommonestOf(slice.values);
      var value, valued := SumOwn(own, cur);
      ListedSums(rows, WinnerWithin(org, key), cur, |rows|);
      share := Share(|own|, |slice.contracts|, Some(Money(cur, value, valued, slice.values[cur].0, slice.values[cur].1)));
      CommonestMoney(rows, key, slice, cur);
    }
  }

  // ------------------------------------------------------------------ what the answers say together

  /** A company's own contracts in the markets shared with a rival are what the rival's answer counts of it. */
  lemma OursIsTheirOverlap(rows: seq<Row>, a: int, b: int)
    ensures Ours(rows, a, b) == Overlap(rows, b, a)
    ensures Shared(rows, a, b) == Shared(rows, b, a)
  {
    forall i | 0 <= i < |rows| && rows[i].org == a
      ensures RowMarkets(rows[i]) * Shared(rows, a, b) == RowMarkets(rows[i]) * Markets(rows, b)
    {
      forall m | m in RowMarkets(rows[i]) ensures m in Markets(rows, a) {
      }
    }
    assert RowsIn(rows, a, Shared(rows, a, b)) == RowsIn(rows, a, Markets(rows, b));
  }

  /** Being a rival is mutual, and each of the two has a contract in some market they share. */
  lemma RivalsAreMutual(rows: seq<Row>, a: int, b: int)
    ensures b in Rivals(rows, a) <==> a in Rivals(rows, b)
    ensures b in Rivals(rows, a) ==> Overlap(rows, a, b) > 0 && Ours(rows, a, b) > 0
  {
    MeetsIffShares(rows, a, b);
    MeetsIffShares(rows, b, a);
    OursIsTheirOverlap(rows, a, b);
    if b in Rivals(rows, a) {
      assert RowsIn(rows, b, Markets(rows, a)) != {} && RowsIn(rows, a, Markets(rows, b)) != {};
    }
  }

  /** The snapshot has one row per contract and winner. */
  ghost predicate OneRowEach(rows: seq<Row>) {
    forall i, j :: 0 <= i < j < |rows| && rows[i].k == rows[j].k ==> rows[i].org != rows[j].org
  }

  ghost predicate NoneTwice(rows: seq<Row>, at: seq<nat>)
    requires InRange(rows, at)
  {
    forall a, b :: 0 <= a < b < |at| ==> rows[at[a]].k != rows[at[b]].k
  }

  lemma {:induction false} RowsAndContracts(rows: seq<Row>, at: seq<nat>)
    requires InRange(rows, at)
    ensures |Contracts(rows, at)| <= |at|
    ensures |Contracts(rows, at)| == |at| <==> NoneTwice(rows, at)
  {
    if at != [] {
      var init, i := at[..|at| - 1], at[|at| - 1];
      RowsAndContracts(rows, init);
      assert at == init + [i];
      ContractsGrow(rows, init, i);
    }
  }

  /** Every row meant by `part` is meant by `whole`. */
  ghost predicate Covers(rows: seq<Row>, whole: By, part: By) {
    forall i :: 0 <= i < |rows| && Is(rows[i], part) ==> Is(rows[i], whole)
  }

  lemma {:induction false} NumberIsPart(rows: seq<Row>, whole: By, part: By, cur: string, n: nat)
    requires n <= |rows| && Covers(rows, whole, part)
    ensures Number(rows, part, cur, n) <= Number(rows, whole, cur, n)
  {
    if n > 0 {
      NumberIsPart(rows, whole, part, cur, n - 1);
    }
  }

  lemma {:induction false} TotalIsPart(rows: seq<Row>, whole: By, part: By, cur: string, n: nat)
    requires n <= |rows| && Covers(rows, whole, part) && forall i :: 0 <= i < |rows| ==> rows[i].amt >= 0.0
    ensures Total(rows, part, cur, n) <= Total(rows, whole, cur, n)
  {
    if n > 0 {
      TotalIsPart(rows, whole, part, cur, n - 1);
    }
  }

  lemma OwnContractsArePart(rows: seq<Row>, org: int, key: Key)
    ensures var own, all := Positions(rows, WinnerWithin(org, key), |rows|), Positions(rows, Within(key), |rows|);
            |Contracts(rows, own)| <= |Contracts(rows, all)|
  {
    var own, all := Positions(rows, WinnerWithin(org, key), |rows|), Positions(rows, Within(key), |rows|);
    PositionsAre(rows, WinnerWithin(org, key), |rows|);
    PositionsAre(rows, Within(key), |rows|);
    forall k | k in Contracts(rows, own) ensures k in Contracts(rows, all) {
      var j :| 0 <= j < |own| && rows[own[j]].k == k;
      assert own[j] in own;
      assert own[j] in all;
    }
    SubsetSize(Contracts(rows, own), Contracts(rows, all));
  }

  lemma OneRowEachInSlice(rows: seq<Row>, org: int, key: Key)
    requires OneRowEach(rows)
    ensures NoneTwice(rows, Positions(rows, WinnerWithin(org, key), |rows|))
  {
    var own := Positions(rows, WinnerWithin(org, key), |rows|);
    PositionsAre(rows, WinnerWithin(org, key), |rows|);
    forall a, b | 0 <= a < b < |own| ensures rows[own[a]].k != rows[own[b]].k {
      assert own[a] in own && own[b] in own;
    }
  }

  /** A share is at most the whole: in contracts when no row repeats one, in value when no amount is negative. */
  lemma ShareIsAPart(rows: seq<Row>, org: int, key: Key, share: Share)
    requires ShareIs(rows, org, key, share)
    ensures OneRowEach(rows) ==> share.contracts <= share.total
    ensures share.money.Some? ==> share.money.value.valued <= share.money.value.valuedTotal
    ensures share.money.Some? && (forall i :: 0 <= i < |rows| ==> rows[i].amt >= 0.0) ==>
              share.money.value.value <= share.money.value.valueTotal
  {
    var own := Positions(rows, WinnerWithin(org, key), |rows|);
    RowsAndContracts(rows, own);
    OwnContractsArePart(rows, org, key);
    if OneRowEach(rows) {
      OneRowEachInSlice(rows, org, key);
    }
    if share.money.Some? {
      NumberIsPart(rows, Within(key), WinnerWithin(org, key), share.money.value.currency, |rows|);
      if forall i :: 0 <= i < |rows| ==> rows[i].amt >= 0.0 {
        TotalIsPart(rows, Within(key), WinnerWithin(org, key), share.money.value.currency, |rows|);
      }
    }
  }

  function AllShares(rows: seq<Row>, key: Key, cur: string, orgs: seq<int>, n: nat): real
    requires n <= |rows|
  {
    if orgs == [] then 0.0
    else Total(rows, WinnerWithin(orgs[0], key), cur, n) + AllShares(rows, key, cur, orgs[1..], n)
  }

  ghost predicate Distinct(orgs: seq<int>) {
    forall a, b :: 0 <= a < b < |orgs| ==> orgs[a] != orgs[b]
  }

  lemma {:induction false} OneWinnerARow(rows: seq<Row>, key: Key, cur: string, orgs: seq<int>, n: nat)
    requires 0 < n <= |rows| && Distinct(orgs)
    ensures AllShares(rows, key, cur, orgs, n) == AllShares(rows, key, cur, orgs, n - 1)
              + (if rows[n - 1].org in orgs && key in KeysOf(rows[n - 1]) && rows[n - 1].cur == Some(cur)
                 then rows[n - 1].amt else 0.0)
  {
    if orgs != [] {
      OneWinnerARow(rows, key, cur, orgs[1..], n);
      assert orgs == [orgs[0]] + orgs[1..];
    }
  }

  lemma {:induction false} NoRowsNoShares(rows: seq<Row>, key: Key, cur: string, orgs: seq<int>)
    ensures AllShares(rows, key, cur, orgs, 0) == 0.0
  {
    if orgs != [] {
      NoRowsNoShares(rows, key, cur, orgs[1..]);
    }
  }

  /** The values of all the winners add up to the slice's value. */
  lemma {:induction false} SharesAddUp(rows: seq<Row>, key: Key, cur: string, orgs: seq<int>, n: nat)
    requires n <= |rows| && Distinct(orgs) && forall i :: 0 <= i < n ==> rows[i].org in orgs
    ensures AllShares(rows, key, cur, orgs, n) == Total(rows, Within(key), cur, n)
  {
    if n == 0 {
      NoRowsNoShares(rows, key, cur, orgs);
    } else {
      var last := if key in KeysOf(rows[n - 1]) && rows[n - 1].cur == Some(cur) then rows[n - 1].amt else 0.0;
      assert AllShares(rows, key, cur, orgs, n) == AllShares(rows, key, cur, orgs, n - 1) + last by {
        assert rows[n - 1].org in orgs;
        OneWinnerARow(rows, key, cur, orgs, n);
      }
      SharesAddUp(rows, key, cur, orgs, n - 1);
    }
  }
}
