/**
  Two runs from empty tables that pass the founding cap: a checkout paid after its hold ran out, and a payment
  disputed after its subscription ended and its place was taken.
 */
module BillingSoldOut {
  import opened Wrappers
  import opened Billing
  import opened BillingRuns

  /** The founding plan is on sale by the year. */
  predicate OnSale(prices: seq<Price>) {
    ProductOf(prices, Founding, Yearly) == Some("F")
  }

  /** When the places are sold: two hours after the first checkout was opened. */
  const SOLD: Time := 2 * HOUR

  function Empty(): Books {
    Books(map[], map[], map[], 0)
  }

  /** The provider's id number `i`. */
  function Id(i: nat): string {
    seq(i + 1, _ => 'x')
  }

  lemma IdsDiffer(i: nat, j: nat)
    ensures Id(i) == Id(j) <==> i == j
  {
    assert |Id(i)| == i + 1 && |Id(j)| == j + 1;
  }

  function Opening(a: Account, at: Time): Step {
    Step(Open(Request(a, Founding, Yearly, None, None, Some(Id(a)))), at)
  }

  /** The account's checkout `ref` is paid. */
  function Payment(a: Account, ref: Ref): Event {
    Event(Id(a), SOLD, CheckoutCompleted(Some(Id(a)), false), Some((ref, a)), Some("F"), None, Some(Id(a)), None, None)
  }

  function Paying(a: Account, ref: Ref): Step {
    Step(Deliver(Payment(a, ref)), SOLD)
  }

  // ------------------------------------------------------------------ the places sold

  function Customer(a: Account): Subscription {
    Subscription(Founding, Yearly, Active, None, Some(Id(a)), None, None, SOLD)
  }

  function CheckoutOf(a: Account, created: Time, completed: Option<Time>): Checkout {
    Checkout(a, Founding, Yearly, "F", Some(Id(a)), created, completed)
  }

  /** The first `n` numbers. */
  function First(n: nat): (r: set<nat>)
    ensures |r| == n && forall a: nat :: a in r <==> a < n
  {
    if n == 0 then {} else First(n - 1) + {n - 1}
  }

  /** The checkouts are numbered from 0 to `n`. */
  function Refs(n: nat): set<Ref> {
    First(n + 1)
  }

  /** The checkouts once `n` places are sold: that of `late` was opened first and has run out. */
  function Checkouts(late: Account, n: nat): map<Ref, Checkout> {
    map r | r in Refs(n) :: if r == 0 then CheckoutOf(late, 0, None) else CheckoutOf(r - 1, SOLD, Some(SOLD))
  }

  function Customers(n: nat): map<Account, Subscription> {
    map a | a in First(n) :: Customer(a)
  }

  function Events(n: nat): map<string, Time> {
    if n == 0 then map[] else Events(n - 1)[Id(n - 1) := SOLD]
  }

  function SoldBooks(late: Account, n: nat): Books {
    Books(Checkouts(late, n), Customers(n), Events(n), n + 1)
  }

  lemma {:induction false} NotSeen(n: nat, i: nat)
    requires i >= n
    ensures Id(i) !in Events(n)
  {
    if n > 0 {
      NotSeen(n - 1, i);
      IdsDiffer(n - 1, i);
    }
  }

  lemma {:induction false} AllSeenThen(n: nat)
    ensures forall id :: id in Events(n) ==> Events(n)[id] == SOLD
    ensures Pruned(Events(n), SOLD) == Events(n)
  {
    if n > 0 {
      AllSeenThen(n - 1);
    }
  }

  lemma AllAreCustomers(n: nat)
    ensures FoundingSubs(Customers(n)) == First(n)
  {
    forall a | a in First(n) ensures a in FoundingSubs(Customers(n)) {
      assert Customers(n)[a] == Customer(a);
    }
  }

  lemma SoldHolders(late: Account, n: nat)
    ensures Holders(SoldBooks(late, n), SOLD) == First(n)
  {
    AllAreCustomers(n);
  }

  /** The books while the next one's checkout is open. */
  function OpenBooks(late: Account, n: nat): Books {
    Books(Checkouts(late, n)[n + 1 := CheckoutOf(n, SOLD, None)], Customers(n), Events(n), n + 2)
  }

  lemma NobodysProvider(late: Account, n: nat)
    requires n < late
    ensures forall r :: r in Checkouts(late, n) ==> Checkouts(late, n)[r].provider != Some(Id(n))
    ensures RecentCheckouts(Checkouts(late, n), n, SOLD) == {}
    ensures OthersHolding(Checkouts(late, n), n, SOLD) == {}
  {
    forall r | r in Checkouts(late, n) ensures Checkouts(late, n)[r].provider != Some(Id(n)) {
      IdsDiffer(n, if r == 0 then late else r - 1);
    }
  }

  /** What is opened, when nothing stands against it. */
  lemma OpenedWrite(prices: seq<Price>, books: Books, a: Account, at: Time)
    requires OnSale(prices) && a !in books.subs && RecentCheckouts(books.checkouts, a, at) == {} && FoundingLeft(books, a, at) > 0
    requires forall r :: r in books.checkouts ==> books.checkouts[r].provider != Some(Id(a))
    ensures After(books, prices, Opening(a, at))
            == Books(books.checkouts[books.nextRef := CheckoutOf(a, at, None)], books.subs, books.events, books.nextRef + 1)
  {
  }

  lemma PlacesLeft(late: Account, n: nat)
    requires n < FOUNDING_CAP <= late
    ensures FoundingLeft(SoldBooks(late, n), n, SOLD) == FOUNDING_CAP - n
  {
    AllAreCustomers(n);
    NobodysProvider(late, n);
  }

  lemma NextOpens(prices: seq<Price>, late: Account, n: nat)
    requires OnSale(prices) && n < FOUNDING_CAP <= late
    ensures After(SoldBooks(late, n), prices, Opening(n, SOLD)) == OpenBooks(late, n)
  {
    PlacesLeft(late, n);
    NobodysProvider(late, n);
    assert n !in Customers(n);
    OpenedWrite(prices, SoldBooks(late, n), n, SOLD);
  }

  lemma NextIsAsked(prices: seq<Price>, late: Account, n: nat)
    requires n < FOUNDING_CAP <= late
    ensures Asked(OpenBooks(late, n), prices, Payment(n, n + 1), SOLD) == (Write(n, Customer(n)), Some(n + 1))
    ensures !Taken(Customers(n), n, Some(Id(n)))
  {
    forall a | a in Customers(n) ensures Customers(n)[a].id != Some(Id(n)) {
      IdsDiffer(a, n);
    }
  }

  /** What is delivered and written. */
  lemma DeliveredWrite(prices: seq<Price>, books: Books, e: Event, a: Account, row: Subscription, ref: Option<Ref>)
    requires Accepted(e, SOLD) && e.id !in books.events
    requires Asked(books, prices, e, SOLD) == (Write(a, row), ref) && !Taken(books.subs, a, row.id)
    ensures After(books, prices, Step(Deliver(e), SOLD))
            == Books(Completed(books.checkouts, ref, SOLD), books.subs[a := row], Pruned(books.events[e.id := SOLD], SOLD), books.nextRef)
  {
  }

  lemma NextPays(prices: seq<Price>, late: Account, n: nat)
    requires n < FOUNDING_CAP <= late
    ensures After(OpenBooks(late, n), prices, Paying(n, n + 1)) == SoldBooks(late, n + 1)
  {
    NotSeen(n, n);
    NextIsAsked(prices, late, n);
    DeliveredWrite(prices, OpenBooks(late, n), Payment(n, n + 1), n, Customer(n), Some(n + 1));
    NextCheckouts(late, n);
    AllSeenThen(n + 1);
  }

  lemma NextCheckouts(late: Account, n: nat)
    ensures Completed(OpenBooks(late, n).checkouts, Some(n + 1), SOLD) == Checkouts(late, n + 1)
  {
    var done, all := Completed(OpenBooks(late, n).checkouts, Some(n + 1), SOLD), Checkouts(late, n + 1);
    assert Refs(n + 1) == Refs(n) + {n + 1};
    assert done.Keys == all.Keys;
    forall r | r in all ensures done[r] == all[r] {
    }
  }

  /** The run that sells `n` places. */
  function Selling(late: Account, n: nat): seq<Step> {
    if n == 0 then [Opening(late, 0)]
    else Selling(late, n - 1) + [Opening(n - 1, SOLD)] + [Paying(n - 1, n)]
  }

  lemma RunThenTwo(prices: seq<Price>, books: Books, steps: seq<Step>, x: Step, y: Step)
    ensures Run(books, prices, steps + [x] + [y]) == After(After(Run(books, prices, steps), prices, x), prices, y)
  {
    RunThenOne(books, prices, steps, x);
    RunThenOne(books, prices, steps + [x], y);
  }

  lemma NextIsSold(prices: seq<Price>, late: Account, n: nat)
    requires OnSale(prices) && n < FOUNDING_CAP <= late
    ensures After(After(SoldBooks(late, n), prices, Opening(n, SOLD)), prices, Paying(n, n + 1)) == SoldBooks(late, n + 1)
  {
    NextOpens(prices, late, n);
    NextPays(prices, late, n);
  }

  lemma SellingOneMore(prices: seq<Price>, late: Account, n: nat)
    requires OnSale(prices) && n < FOUNDING_CAP <= late
    requires Run(Empty(), prices, Selling(late, n)) == SoldBooks(late, n)
    ensures Run(Empty(), prices, Selling(late, n + 1)) == SoldBooks(late, n + 1)
  {
    RunThenTwo(prices, Empty(), Selling(late, n), Opening(n, SOLD), Paying(n, n + 1));
    NextIsSold(prices, late, n);
  }

  lemma {:induction false} SellingSells(prices: seq<Price>, late: Account, n: nat)
    requires OnSale(prices) && n <= FOUNDING_CAP <= late
    ensures Run(Empty(), prices, Selling(late, n)) == SoldBooks(late, n)
  {
    if n == 0 {
    } else {
      SellingSells(prices, late, n - 1);
      SellingOneMore(prices, late, n - 1);
    }
  }

  lemma {:induction false} SellingIsClocked(late: Account, n: nat)
    ensures Clocked(0, Selling(late, n))
    ensures forall i :: 0 <= i < |Selling(late, n)| ==> Selling(late, n)[i].now <= SOLD
  {
    if n > 0 {
      SellingIsClocked(late, n - 1);
    }
  }

  // ------------------------------------------------------------------ paid late

  lemma FirstIsNamed(late: Account, n: nat)
    ensures NamesCheckout(SoldBooks(late, n), Payment(late, 0), 0)
    ensures n <= late ==> HoldsNothing(SoldBooks(late, n), late, SOLD)
  {
  }

  lemma FirstIsPaidLate(prices: seq<Price>, late: Account, n: nat)
    requires n <= FOUNDING_CAP <= late
    ensures LateConversion(SoldBooks(late, n), prices, Payment(late, 0), SOLD)
  {
    var books := SoldBooks(late, n);
    NotSeen(n, late);
    FirstIsNamed(late, n);
    forall a | a in books.subs ensures books.subs[a].id != Some(Id(late)) {
      IdsDiffer(a, late);
    }
    assert PaidLate(books, Payment(late, 0), 0, SOLD);
  }

  lemma SoldIsSound(prices: seq<Price>, late: Account, n: nat)
    requires OnSale(prices) && n <= FOUNDING_CAP <= late
    ensures Sound(SoldBooks(late, n))
  {
    SellingSells(prices, late, n);
    RunKeeps(Empty(), prices, Selling(late, n));
  }

  lemma ClockedThenOne(steps: seq<Step>, last: Step)
    requires Clocked(0, steps) && last.now == SOLD && forall i :: 0 <= i < |steps| ==> steps[i].now <= SOLD
    ensures Clocked(0, steps + [last]) && forall i :: 0 <= i <= |steps| ==> (steps + [last])[i].now <= SOLD
  {
  }

  lemma SoldRun(prices: seq<Price>, late: Account, n: nat) returns (steps: seq<Step>)
    requires OnSale(prices) && n <= FOUNDING_CAP <= late
    ensures Run(Empty(), prices, steps) == SoldBooks(late, n)
    ensures Clocked(0, steps) && forall i :: 0 <= i < |steps| ==> steps[i].now <= SOLD
  {
    steps := Selling(late, n);
    SellingSells(prices, late, n);
    SellingIsClocked(late, n);
  }

  /** A run that fills the places, and one event more that takes a place late, pass the cap. */
  lemma FullThenLate(prices: seq<Price>, steps: seq<Step>, e: Event, books: Books)
    requires Run(Empty(), prices, steps) == books && |Holders(books, SOLD)| == FOUNDING_CAP
    requires Clocked(0, steps) && forall i :: 0 <= i < |steps| ==> steps[i].now <= SOLD
    requires LateConversion(books, prices, e, SOLD)
    ensures PassesCap(prices, steps, Step(Deliver(e), SOLD))
  {
    var last := Step(Deliver(e), SOLD);
    ClockedThenOne(steps, last);
    RunKeeps(Empty(), prices, steps);
    EventKeepsCapExact(books, prices, e, SOLD);
    RunThenOne(Empty(), prices, steps, last);
  }

  /** A run from empty tables, in order of time, fills the places and its last step passes the cap. */
  ghost predicate PassesCap(prices: seq<Price>, steps: seq<Step>, last: Step) {
    && Clocked(0, steps + [last])
    && |Holders(Run(Empty(), prices, steps), last.now)| == FOUNDING_CAP
    && |Holders(Run(Empty(), prices, steps + [last]), last.now)| > FOUNDING_CAP
  }

  /** The cap can be passed: all twenty places are sold while a hold has run out, and then its checkout is paid. */
  lemma LateConversionPassesCap(prices: seq<Price>, late: Account, n: nat) returns (steps: seq<Step>)
    requires OnSale(prices) && n == FOUNDING_CAP <= late
    ensures PassesCap(prices, steps, Paying(late, 0))
  {
    steps := SoldRun(prices, late, n);
    SoldHolders(late, n);
    FirstIsPaidLate(prices, late, n);
    FullThenLate(prices, steps, Payment(late, 0), SoldBooks(late, n));
  }

  /** The provider says that the subscription of that checkout is active, and no payment is said. */
  function Starting(late: Account): Event {
    Event(Id(late), SOLD, SubscriptionChanged, Some((0, late)), Some("F"), None, Some(Id(late)), Some(Active), None)
  }

  lemma FirstIsStartedLate(prices: seq<Price>, late: Account, n: nat)
    requires n <= FOUNDING_CAP <= late
    ensures LateConversion(SoldBooks(late, n), prices, Starting(late), SOLD)
  {
    var books := SoldBooks(late, n);
    NotSeen(n, late);
    FirstIsNamed(late, n);
    forall a | a in books.subs ensures books.subs[a].id != Some(Id(late)) {
      IdsDiffer(a, late);
    }
    assert StartedLate(books, Starting(late), 0, SOLD);
  }

  /** Or its subscription is started. */
  lemma LateStartPassesCap(prices: seq<Price>, late: Account, n: nat) returns (steps: seq<Step>)
    requires OnSale(prices) && n == FOUNDING_CAP <= late
    ensures PassesCap(prices, steps, Step(Deliver(Starting(late)), SOLD))
  {
    steps := SoldRun(prices, late, n);
    SoldHolders(late, n);
    FirstIsStartedLate(prices, late, n);
    FullThenLate(prices, steps, Starting(late), SoldBooks(late, n));
  }

  // ------------------------------------------------------------------ disputed after the end

  /** The first customer's subscription ends. */
  function Ending(late: Account): Event {
    Event(Id(late + 1), SOLD, SubscriptionChanged, None, None, None, Some(Id(0)), Some(Expired), None)
  }

  /** And a payment of it is disputed. */
  function Dispute0(late: Account): Event {
    Event(Id(late + 2), SOLD, Dispute, None, None, None, Some(Id(0)), None, None)
  }

  function Ended0(): Subscription {
    Customer(0).(status := Expired)
  }

  /** The books once the first place is free again. */
  function FreedBooks(late: Account, n: nat): Books {
    Books(Checkouts(late, n), Customers(n)[0 := Ended0()], Events(n)[Id(late + 1) := SOLD], n + 1)
  }

  function RetakenRows(late: Account, n: nat): map<Account, Subscription> {
    Customers(n)[0 := Ended0()][late := Customer(late)]
  }

  /** And once the late checkout has taken it. */
  function RetakenBooks(late: Account, n: nat): Books {
    Books(Checkouts(late, n)[0 := CheckoutOf(late, 0, Some(SOLD))], RetakenRows(late, n),
          Events(n)[Id(late + 1) := SOLD][Id(late) := SOLD], n + 1)
  }

  lemma {:induction false} NoProductNoPlan(prices: seq<Price>)
    ensures PlanFor(prices, None).None?
  {
    if prices != [] {
      NoProductNoPlan(prices[1..]);
    }
  }

  lemma EndingIsAsked(prices: seq<Price>, late: Account, n: nat)
    requires 0 < n && IdsUnique(Customers(n))
    ensures Asked(SoldBooks(late, n), prices, Ending(late), SOLD) == (Write(0, Ended0()), None)
    ensures !Taken(Customers(n), 0, Some(Id(0)))
  {
    RowIsTheOne(Customers(n), 0);
    NoProductNoPlan(prices);
  }

  lemma FreedEvents(late: Account, n: nat)
    requires n <= late
    ensures Id(late + 1) !in Events(n)
    ensures Pruned(Events(n)[Id(late + 1) := SOLD], SOLD) == Events(n)[Id(late + 1) := SOLD]
  {
    NotSeen(n, late + 1);
    AllSeenThen(n);
  }

  lemma FirstEnds(prices: seq<Price>, late: Account, n: nat)
    requires 0 < n <= late && IdsUnique(Customers(n))
    ensures After(SoldBooks(late, n), prices, Step(Deliver(Ending(late)), SOLD)) == FreedBooks(late, n)
  {
    EndingIsAsked(prices, late, n);
    FreedEvents(late, n);
    DeliveredWrite(prices, SoldBooks(late, n), Ending(late), 0, Ended0(), None);
  }

  lemma LateIsNew(late: Account, n: nat)
    requires 0 < n <= late
    ensures late !in FreedBooks(late, n).subs && !Taken(FreedBooks(late, n).subs, late, Some(Id(late)))
  {
    var subs := FreedBooks(late, n).subs;
    forall a | a in subs ensures subs[a].id != Some(Id(late)) {
      IdsDiffer(a, late);
    }
  }

  lemma LateIsAsked(prices: seq<Price>, late: Account, n: nat)
    requires 0 < n <= FOUNDING_CAP <= late
    ensures Asked(FreedBooks(late, n), prices, Payment(late, 0), SOLD) == (Write(late, Customer(late)), Some(0))
    ensures !Taken(FreedBooks(late, n).subs, late, Some(Id(late)))
  {
    LateIsNew(late, n);
    assert OurCheckout(FreedBooks(late, n), Some((0, late)), Some("F")) == Some(0);
  }

  lemma RetakenEvents(late: Account, n: nat)
    requires n <= late
    ensures Id(late) !in FreedBooks(late, n).events
    ensures Pruned(FreedBooks(late, n).events[Id(late) := SOLD], SOLD) == RetakenBooks(late, n).events
  {
    NotSeen(n, late);
    IdsDiffer(late, late + 1);
    AllSeenThen(n);
  }

  lemma LateTakesIt(prices: seq<Price>, late: Account, n: nat)
    requires 0 < n <= FOUNDING_CAP <= late
    ensures After(FreedBooks(late, n), prices, Paying(late, 0)) == RetakenBooks(late, n)
  {
    LateIsAsked(prices, late, n);
    RetakenEvents(late, n);
    DeliveredWrite(prices, FreedBooks(late, n), Payment(late, 0), late, Customer(late), Some(0));
  }

  lemma RetakenHolds(late: Account, n: nat)
    ensures HoldAccounts(RetakenBooks(late, n).checkouts, SOLD) == {}
  {
    var checkouts := RetakenBooks(late, n).checkouts;
    forall r | r in checkouts ensures !HoldsPlace(checkouts[r], SOLD) {
      assert checkouts[r].completed == Some(SOLD);
    }
  }

  lemma RetakenSub(late: Account, n: nat, a: Account)
    requires 0 < n <= late
    ensures a in FoundingSubs(RetakenRows(late, n)) <==> a in First(n) - {0} + {late}
  {
    var subs := RetakenRows(late, n);
    assert a in subs <==> a in First(n) || a == late;
    if a in subs {
      assert subs[a] == if a == late then Customer(late) else if a == 0 then Ended0() else Customer(a);
    }
  }

  lemma RetakenSubs(late: Account, n: nat)
    requires 0 < n <= late
    ensures FoundingSubs(RetakenRows(late, n)) == First(n) - {0} + {late}
  {
    forall a: Account ensures a in FoundingSubs(RetakenRows(late, n)) <==> a in First(n) - {0} + {late} {
      RetakenSub(late, n, a);
    }
  }

  lemma RetakenHolders(late: Account, n: nat)
    requires 0 < n <= late
    ensures |Holders(RetakenBooks(late, n), SOLD)| == n
  {
    RetakenHolds(late, n);
    RetakenSubs(late, n);
    assert First(n) == (First(n) - {0}) + {0};
    assert Holders(RetakenBooks(late, n), SOLD) == First(n) - {0} + {late};
  }

  lemma FirstHoldsNothing(late: Account, n: nat)
    requires 0 < n <= late
    ensures HoldsNothing(RetakenBooks(late, n), 0, SOLD)
  {
    var books := RetakenBooks(late, n);
    forall r | r in books.checkouts ensures !OpenFounding(books.checkouts[r], 0) {
      assert books.checkouts[r].completed == Some(SOLD);
    }
  }

  lemma DisputeIsLate(prices: seq<Price>, late: Account, n: nat)
    requires 0 < n <= late
    ensures LateConversion(RetakenBooks(late, n), prices, Dispute0(late), SOLD)
  {
    var books, e := RetakenBooks(late, n), Dispute0(late);
    NotSeen(n, late + 2);
    IdsDiffer(late + 1, late + 2);
    IdsDiffer(late, late + 2);
    FirstHoldsNothing(late, n);
    assert DisputedAfterEnd(books, e, 0, SOLD);
  }

  lemma Retaking(prices: seq<Price>, late: Account, n: nat) returns (steps: seq<Step>)
    requires OnSale(prices) && 0 < n <= FOUNDING_CAP <= late
    ensures Run(Empty(), prices, steps) == RetakenBooks(late, n)
    ensures Clocked(0, steps) && forall i :: 0 <= i < |steps| ==> steps[i].now <= SOLD
  {
    var ending := Step(Deliver(Ending(late)), SOLD);
    steps := Selling(late, n) + [ending] + [Paying(late, 0)];
    SellingIsClocked(late, n);
    SellingSells(prices, late, n);
    ClockedThenOne(Selling(late, n), ending);
    ClockedThenOne(Selling(late, n) + [ending], Paying(late, 0));
    RunThenTwo(prices, Empty(), Selling(late, n), ending, Paying(late, 0));
    EndedThenTaken(prices, late, n);
  }

  lemma EndedThenTaken(prices: seq<Price>, late: Account, n: nat)
    requires OnSale(prices) && 0 < n <= FOUNDING_CAP <= late
    ensures After(After(SoldBooks(late, n), prices, Step(Deliver(Ending(late)), SOLD)), prices, Paying(late, 0)) == RetakenBooks(late, n)
  {
    SoldIsSound(prices, late, n);
    FirstEnds(prices, late, n);
    LateTakesIt(prices, late, n);
  }

  /** It can be passed by a dispute too: the twenty places are sold, one of the subscriptions ends, its place is taken,
      and then a payment of the ended one is disputed. */
  lemma DisputePassesCap(prices: seq<Price>, late: Account, n: nat) returns (steps: seq<Step>)
    requires OnSale(prices) && n == FOUNDING_CAP <= late
    ensures PassesCap(prices, steps, Step(Deliver(Dispute0(late)), SOLD))
  {
    steps := Retaking(prices, late, n);
    RetakenHolders(late, n);
    DisputeIsLate(prices, late, n);
    FullThenLate(prices, steps, Dispute0(late), RetakenBooks(late, n));
  }

  /** The ended subscription is stated to be active again. */
  function Reviving(late: Account): Event {
    Event(Id(late + 2), SOLD, SubscriptionChanged, None, None, None, Some(Id(0)), Some(Active), None)
  }

  lemma RevivalIsLate(prices: seq<Price>, late: Account, n: nat)
    requires 0 < n <= late
    ensures LateConversion(RetakenBooks(late, n), prices, Reviving(late), SOLD)
  {
    var books, e := RetakenBooks(late, n), Reviving(late);
    NotSeen(n, late + 2);
    IdsDiffer(late + 1, late + 2);
    IdsDiffer(late, late + 2);
    NoProductNoPlan(prices);
    FirstHoldsNothing(late, n);
    assert TurnedFounding(books, prices, e, 0, SOLD);
  }

  /** Or that ended one is stated to be active again. */
  lemma RevivalPassesCap(prices: seq<Price>, late: Account, n: nat) returns (steps: seq<Step>)
    requires OnSale(prices) && n == FOUNDING_CAP <= late
    ensures PassesCap(prices, steps, Step(Deliver(Reviving(late)), SOLD))
  {
    steps := Retaking(prices, late, n);
    RetakenHolders(late, n);
    RevivalIsLate(prices, late, n);
    FullThenLate(prices, steps, Reviving(late), RetakenBooks(late, n));
  }
}
