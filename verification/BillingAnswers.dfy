/**
  What the ledger answers, said of statuses, times and tables: the plan in force, the checkout that is refused or
  opened, and the outcome of every event with the row it leaves (backend/dgate/billing.py).
 */
module BillingAnswers {
  import opened Wrappers
  import opened Billing
  import opened BillingRuns

  // ------------------------------------------------------------------ the plan in force

  /** An account's own subscription puts this plan in force. */
  predicate Has(books: Books, a: Account, plan: Plan, now: Time) {
    a in books.subs && books.subs[a].plan == plan && Grants(books.subs[a].status, books.subs[a].periodEnd, now)
  }

  lemma HasPlan(books: Books, a: Account, now: Time)
    ensures forall plan :: Has(books, a, plan, now) <==> PlanNow(books, a, None, None, now) == Some(plan)
  {
    if a in books.subs {
      OwnPlanExact(Some(books.subs[a].plan), Some(books.subs[a].status), books.subs[a].periodEnd, now);
    }
  }

  // ------------------------------------------------------------------ a checkout

  predicate OnSale(prices: seq<Price>, plan: Plan, period: Period) {
    exists i :: 0 <= i < |prices| && prices[i].plan == plan && prices[i].period == period
  }

  lemma {:induction false} ProductOfExact(prices: seq<Price>, plan: Plan, period: Period)
    ensures ProductOf(prices, plan, period).Some? <==> OnSale(prices, plan, period)
    ensures forall product :: ProductOf(prices, plan, period) == Some(product) ==> Price(plan, period, product) in prices
  {
    if prices != [] {
      ProductOfExact(prices[1..], plan, period);
      if OnSale(prices[1..], plan, period) {
        var i :| 0 <= i < |prices[1..]| && prices[1..][i].plan == plan && prices[1..][i].period == period;
        assert prices[i + 1].plan == plan;
      }
      if OnSale(prices, plan, period) && !(prices[0].plan == plan && prices[0].period == period) {
        var i :| 0 <= i < |prices| && prices[i].plan == plan && prices[i].period == period;
        assert prices[1..][i - 1].plan == plan;
      }
    }
  }

  /** The account has a plan: its own, its association's, or one its workspace is lent. */
  predicate HasSomePlan(books: Books, r: Request, now: Time) {
    (exists plan :: Has(books, r.account, plan, now)) || r.association.Some? || Lent(r.workspace, r.workspace)
  }

  lemma PlanNowExact(books: Books, r: Request, now: Time)
    ensures PlanNow(books, r.account, r.association, r.workspace, now).Some? <==> HasSomePlan(books, r, now)
  {
    HasPlan(books, r.account, now);
    var own, best := PlanNow(books, r.account, None, None, now), PlanNow(books, r.account, r.association, r.workspace, now);
    LargestExact(own, r.association, r.workspace, best);
    if own.Some? {
      assert Has(books, r.account, own.value, now);
    }
  }

  /** The account opened five checkouts within the hour. */
  ghost predicate OpenedFive(books: Books, a: Account, now: Time) {
    |set r | r in books.checkouts && books.checkouts[r].account == a && now - 3600 < books.checkouts[r].created| >= 5
  }

  /** The twenty places are taken by live founding subscriptions and by the founding checkouts that other accounts opened
      within the hour and did not complete. */
  ghost predicate PlacesTaken(books: Books, a: Account, now: Time) {
    |set b | b in books.subs && books.subs[b].plan == Founding
             && books.subs[b].status != Canceled && books.subs[b].status != Expired|
    + |set r | r in books.checkouts && books.checkouts[r].plan == Founding && books.checkouts[r].completed.None?
               && now - 3600 < books.checkouts[r].created && books.checkouts[r].account != a| >= 20
  }

  predicate Answered(books: Books, r: Request) {
    r.answer.Some? && forall c :: c in books.checkouts ==> books.checkouts[c].provider != r.answer
  }

  /** What each refusal of a checkout means, in the order in which they are given. */
  lemma CheckoutAnswerExact(books: Books, prices: seq<Price>, r: Request, now: Time)
    ensures var (next, result) := AfterRequest(books, prices, r, now);
            var sold, planned := OnSale(prices, r.plan, r.period), HasSomePlan(books, r, now);
            var limited, full := OpenedFive(books, r.account, now), r.plan == Founding && PlacesTaken(books, r.account, now);
            && (result == NoSuchPlan <==> !sold)
            && (result == AlreadySubscribed <==> sold && planned)
            && (result == RateLimited <==> sold && !planned && limited)
            && (result == FoundingFull <==> sold && !planned && !limited && full)
            && (result == ProviderFailed <==> sold && !planned && !limited && !full && !Answered(books, r))
            && (result == Opened <==> sold && !planned && !limited && !full && Answered(books, r))
  {
    ProductOfExact(prices, r.plan, r.period);
    PlanNowExact(books, r, now);
    CountsAreTheSame(books, r.account, now);
  }

  lemma CountsAreTheSame(books: Books, a: Account, now: Time)
    ensures OpenedFive(books, a, now) <==> |RecentCheckouts(books.checkouts, a, now)| >= CHECKOUTS_PER_HOUR
    ensures PlacesTaken(books, a, now) <==> FoundingLeft(books, a, now) == 0
  {
    assert RecentCheckouts(books.checkouts, a, now)
        == set r | r in books.checkouts && books.checkouts[r].account == a && now - 3600 < books.checkouts[r].created;
    assert FoundingSubs(books.subs)
        == set b | b in books.subs && books.subs[b].plan == Founding
                   && books.subs[b].status != Canceled && books.subs[b].status != Expired;
    assert OthersHolding(books.checkouts, a, now)
        == set r | r in books.checkouts && books.checkouts[r].plan == Founding && books.checkouts[r].completed.None?
                   && now - 3600 < books.checkouts[r].created && books.checkouts[r].account != a;
  }

  /** An opened checkout is the one asked for, now, under a product of that plan; nothing else moves, and a refusal moves
      nothing. */
  lemma OpenedIsAsked(books: Books, prices: seq<Price>, r: Request, now: Time)
    requires books.nextRef !in books.checkouts
    ensures var (next, result) := AfterRequest(books, prices, r, now);
            && (result != Opened ==> next == books)
            && (result == Opened ==>
                  && next.subs == books.subs && next.events == books.events
                  && next.checkouts.Keys == books.checkouts.Keys + {books.nextRef}
                  && (forall c :: c in books.checkouts ==> next.checkouts[c] == books.checkouts[c])
                  && var c := next.checkouts[books.nextRef];
                     && c.account == r.account && c.plan == r.plan && c.period == r.period && Price(r.plan, r.period, c.product) in prices
                     && c.provider == r.answer && c.created == now && c.completed.None?)
  {
    ProductOfExact(prices, r.plan, r.period);
  }

  // ------------------------------------------------------------------ an event's row

  /** The subscription's row. */
  predicate HeldBy(books: Books, sub: Option<string>, a: Account) {
    sub.Some? && a in books.subs && books.subs[a].id == sub
  }

  /** What is stated stands; what is not is kept. */
  predicate Carries<T(==)>(stated: Option<T>, held: Option<T>, now: Option<T>) {
    if stated.Some? then now == stated else now == held
  }

  /** The row an event leaves of one it found, or of none: its time, and customer, id, period end and refund as stated. */
  predicate Leaves(books: Books, a: Account, row: Subscription, at: Time, customer: Option<string>, sub: Option<string>,
                   periodEnd: Option<Time>, refunded: Option<Time>) {
    && row.lastAt == at
    && (if a in books.subs then
          var held := books.subs[a];
          Carries(customer, held.customer, row.customer) && Carries(sub, held.id, row.id)
          && Carries(periodEnd, held.periodEnd, row.periodEnd) && Carries(refunded, held.refunded, row.refunded)
        else row.customer == customer && row.id == sub && row.periodEnd == periodEnd && row.refunded == refunded)
  }

  /** Only this account's row was written. */
  predicate OnlyRow(books: Books, next: Books, a: Account) {
    a in next.subs && next.subs.Keys == books.subs.Keys + {a} && forall b :: b in books.subs && b != a ==> next.subs[b] == books.subs[b]
  }

  /** The account has a subscription that the provider may still charge. */
  predicate Running(books: Books, a: Account, now: Time) {
    a in books.subs && books.subs[a].id.Some? && MayCharge(books.subs[a].status, books.subs[a].periodEnd, now)
  }

  /** The stated id would be a second account's. */
  ghost predicate Elsewhere(books: Books, a: Account, sub: Option<string>) {
    sub.Some? && exists b :: b != a && HeldBy(books, sub, b)
  }

  /** The completed checkout is one opened here: named with its account, its product and its provider's id. */
  predicate Completes(books: Books, e: Event, ref: Ref) {
    && e.body.CheckoutCompleted? && !e.body.notCompleted && ref in books.checkouts
    && e.named == Some((ref, books.checkouts[ref].account)) && e.product == Some(books.checkouts[ref].product)
    && e.body.provider == books.checkouts[ref].provider
  }

  /** An event is heard of when it is not too old, not too far ahead and new. */
  predicate New(books: Books, e: Event, now: Time) {
    now - 90000 <= e.at <= now + 300 && e.id !in books.events
  }

  lemma HeardExact(books: Books, prices: seq<Price>, e: Event, now: Time)
    ensures var (next, outcome) := Delivered(books, prices, e, now);
            && (outcome == Refused <==> !(now - 90000 <= e.at <= now + 300))
            && (outcome == Duplicate <==> now - 90000 <= e.at <= now + 300 && e.id in books.events)
            && (outcome == Refused || outcome == Clash ==> next == books)
            && (outcome == Duplicate ==> next.subs == books.subs && next.checkouts == books.checkouts)
  {
  }

  /** Nobody's row is written; the event is noted all the same. */
  predicate NoRow(books: Books, next: Books) {
    next.subs == books.subs
  }

  /** The checkout is marked completed, with the time it was first; no other changes. */
  predicate MarksOnly(books: Books, next: Books, ref: Ref, now: Time)
    requires ref in books.checkouts
  {
    && next.checkouts.Keys == books.checkouts.Keys
    && (forall r :: r in books.checkouts && r != ref ==> next.checkouts[r] == books.checkouts[r])
    && var was, c := books.checkouts[ref], next.checkouts[ref];
       && c == was.(completed := c.completed)
       && c.completed == if was.completed.Some? then was.completed else Some(now)
  }

  lemma TakenExact(books: Books, a: Account, sub: Option<string>)
    ensures Taken(books.subs, a, sub) <==> Elsewhere(books, a, sub)
    ensures IdsUnique(books.subs) && a in books.subs ==> !Taken(books.subs, a, books.subs[a].id)
  {
    if Taken(books.subs, a, sub) {
      var b :| b in books.subs && b != a && books.subs[b].id == sub;
      assert HeldBy(books, sub, b);
    }
  }

  lemma UnmatchedCompletion(books: Books, prices: seq<Price>, e: Event, now: Time)
    requires New(books, e, now) && e.body.CheckoutCompleted?
    ensures var (next, outcome) := Delivered(books, prices, e, now);
            && (outcome == Unmatched <==> forall ref :: !Completes(books, e, ref))
            && (outcome == Unmatched ==> NoRow(books, next) && next.checkouts == books.checkouts)
  {
    if e.named.Some? {
      assert Completes(books, e, e.named.value.0) || forall ref :: !Completes(books, e, ref);
    }
  }

  /** What a completed checkout is answered. */
  lemma CompletionAnswerExact(books: Books, prices: seq<Price>, e: Event, now: Time, ref: Ref)
    requires IdsUnique(books.subs) && New(books, e, now) && Completes(books, e, ref)
    ensures var outcome, c := Delivered(books, prices, e, now).1, books.checkouts[ref];
            var second := Running(books, c.account, now) && books.subs[c.account].id != e.sub;
            var older := c.account in books.subs && books.subs[c.account].id == e.sub && e.at < books.subs[c.account].lastAt;
            && (outcome == SecondSubscription <==> second)
            && (outcome == Older <==> older)
            && (outcome == Clash <==> !second && !older && Elsewhere(books, c.account, e.sub))
            && (outcome == Applied <==> !second && !older && !Elsewhere(books, c.account, e.sub))
  {
    TakenExact(books, books.checkouts[ref].account, e.sub);
  }

  /** And what it leaves: the checkout's plan and period, and the status stated or an active one. */
  lemma CompletionLeavesExact(books: Books, prices: seq<Price>, e: Event, now: Time, ref: Ref)
    requires New(books, e, now) && Completes(books, e, ref)
    ensures var (next, outcome) := Delivered(books, prices, e, now);
            var c := books.checkouts[ref];
            && (outcome != Clash ==> MarksOnly(books, next, ref, now))
            && (if outcome != Applied then NoRow(books, next)
                else
                  && OnlyRow(books, next, c.account)
                  && var row := next.subs[c.account];
                     && row.plan == c.plan && row.period == c.period && row.status == (if e.status.Some? then e.status.value else Active)
                     && Leaves(books, c.account, row, e.at, e.customer, e.sub, e.periodEnd, None))
  {
  }

  /** The product's first place in the price list. */
  predicate Lists(prices: seq<Price>, product: Option<string>, i: nat) {
    i < |prices| && product == Some(prices[i].product) && forall j :: 0 <= j < i ==> prices[j].product != prices[i].product
  }

  lemma {:induction false} PlanForExact(prices: seq<Price>, product: Option<string>)
    ensures forall i: nat :: Lists(prices, product, i) ==> PlanFor(prices, product) == Some((prices[i].plan, prices[i].period))
    ensures PlanFor(prices, product).Some? ==> exists i: nat :: Lists(prices, product, i)
  {
    if prices != [] {
      var rest := prices[1..];
      PlanForExact(rest, product);
      forall i: nat | Lists(prices, product, i) ensures PlanFor(prices, product) == Some((prices[i].plan, prices[i].period)) {
        if i > 0 {
          assert rest[i - 1] == prices[i] && Lists(rest, product, i - 1);
        }
      }
      if PlanFor(prices, product).Some? {
        if Some(prices[0].product) == product {
          assert Lists(prices, product, 0);
        } else {
          var i: nat :| Lists(rest, product, i);
          assert rest[i] == prices[i + 1] && Lists(prices, product, i + 1);
        }
      }
    }
  }

  /** What an event of a subscription that has a row is answered, and what it leaves: the plan of the product stated if it
      is on the list, the status stated, and otherwise what was held. */
  lemma SubscriptionExact(books: Books, prices: seq<Price>, e: Event, now: Time, a: Account)
    requires IdsUnique(books.subs) && New(books, e, now) && e.body.SubscriptionChanged? && HeldBy(books, e.sub, a)
    ensures var (next, outcome) := Delivered(books, prices, e, now);
            var held := books.subs[a];
            var mismatch := held.customer.Some? && e.customer.Some? && held.customer.value != e.customer.value;
            && (outcome == CustomerMismatch <==> mismatch)
            && (outcome == Older <==> !mismatch && e.at < held.lastAt)
            && (outcome == Applied <==> !mismatch && held.lastAt <= e.at)
            && next.checkouts == books.checkouts
            && (if outcome != Applied then NoRow(books, next)
                else
                  && OnlyRow(books, next, a)
                  && var row := next.subs[a];
                     && (forall i: nat :: Lists(prices, e.product, i) ==> row.plan == prices[i].plan && row.period == prices[i].period)
                     && ((forall i: nat :: !Lists(prices, e.product, i)) ==> row.plan == held.plan && row.period == held.period)
                     && row.status == (if e.status.Some? then e.status.value else held.status)
                     && Leaves(books, a, row, e.at, e.customer, e.sub, e.periodEnd, None))
  {
    RowIsTheOne(books.subs, a);
    PlanForExact(prices, e.product);
  }

  /** And of one that has none: it starts the subscription of the checkout it names. */
  lemma StartExact(books: Books, prices: seq<Price>, e: Event, now: Time, ref: Ref)
    requires IdsUnique(books.subs) && New(books, e, now) && e.body.SubscriptionChanged? && (forall a :: !HeldBy(books, e.sub, a))
    requires NamesCheckout(books, e, ref)
    ensures var (next, outcome) := Delivered(books, prices, e, now);
            var c := books.checkouts[ref];
            && (outcome == Unmatched <==> e.status.None?)
            && (outcome == SecondSubscription <==> e.status.Some? && Running(books, c.account, now))
            && (outcome == Applied <==> e.status.Some? && !Running(books, c.account, now))
            && next.checkouts == books.checkouts
            && (if outcome != Applied then NoRow(books, next)
                else
                  && OnlyRow(books, next, c.account)
                  && var row := next.subs[c.account];
                     && row.plan == c.plan && row.period == c.period && Some(row.status) == e.status
                     && Leaves(books, c.account, row, e.at, e.customer, e.sub, e.periodEnd, None))
  {
    assert RowOf(books.subs, e.sub).None? by {
      assert forall a :: a in books.subs && books.subs[a].id == e.sub && e.sub.Some? ==> HeldBy(books, e.sub, a);
    }
  }

  /** What a refund or a dispute is answered, and what it leaves: a dispute is a status of its own, a refund ends the
      subscription only when it says so. */
  lemma ReversalExact(books: Books, prices: seq<Price>, e: Event, now: Time, a: Account)
    requires IdsUnique(books.subs) && New(books, e, now) && (e.body.Refund? || e.body.Dispute?) && HeldBy(books, e.sub, a)
    ensures var (next, outcome) := Delivered(books, prices, e, now);
            var held := books.subs[a];
            && (outcome == Older <==> e.at < held.lastAt)
            && (outcome == Applied <==> held.lastAt <= e.at)
            && next.checkouts == books.checkouts
            && (if outcome != Applied then NoRow(books, next)
                else
                  && OnlyRow(books, next, a)
                  && var row := next.subs[a];
                     && row.plan == held.plan && row.period == held.period
                     && row.status == (match e.body case Dispute => Disputed case Refund(true) => Canceled case _ => held.status)
                     && Leaves(books, a, row, e.at, None, None, None, if e.body.Refund? then Some(e.at) else None))
  {
    RowIsTheOne(books.subs, a);
  }

  /** Every other event changes no row. */
  lemma OthersChangeNothing(books: Books, prices: seq<Price>, e: Event, now: Time)
    requires New(books, e, now)
    requires e.body.OtherEvent?
             || (!e.body.CheckoutCompleted? && (forall a :: !HeldBy(books, e.sub, a))
                 && (e.body.SubscriptionChanged? ==> forall ref :: !NamesCheckout(books, e, ref)))
    ensures var (next, outcome) := Delivered(books, prices, e, now);
            && outcome == (if e.body.OtherEvent? then Ignored else Unmatched)
            && NoRow(books, next) && next.checkouts == books.checkouts
  {
    if !e.body.OtherEvent? {
      assert RowOf(books.subs, e.sub).None? by {
        assert forall a :: a in books.subs && books.subs[a].id == e.sub && e.sub.Some? ==> HeldBy(books, e.sub, a);
      }
      if OurCheckout(books, e.named, e.product).Some? {
        assert NamesCheckout(books, e, OurCheckout(books, e.named, e.product).value);
      }
    }
  }

  /** The ids noted after a delivery: those of thirty days, and this one. */
  lemma NotedExact(books: Books, prices: seq<Price>, e: Event, now: Time, id: string)
    requires New(books, e, now)
    ensures var (next, outcome) := Delivered(books, prices, e, now);
            outcome != Clash ==>
              && (id in next.events <==> id == e.id || (id in books.events && now - 2592000 <= books.events[id]))
              && (id in next.events ==> next.events[id] == if id == e.id then now else books.events[id])
  {
  }

  // ------------------------------------------------------------------ over runs

  /** Whatever the order of delivery, the plan in force in the end is the one of the newest that was said, as long as what
      was said grants it. */
  lemma PlanAfterRun(books: Books, prices: seq<Price>, steps: seq<Step>, a: Account, id: string, customer: Option<string>, f: Facts, now: Time)
    requires Sound(books) && RowSays(books, a, id, customer, f) && NoReversal(steps, id)
    requires Orderly(prices, steps, a, id, customer, f) && SeenAreOld(books, prices, steps, id, customer, f.at)
    ensures var g := Newest(prices, steps, id, customer, f);
            forall plan :: Has(Run(books, prices, steps), a, plan, now) <==> plan == g.plan && Grants(g.status, Some(g.periodEnd), now)
  {
    EndsWithNewest(books, prices, steps, a, id, customer, f);
  }

  /** After any run, an event that is applied and says that the subscription to a listed product is active puts that
      product's plan in force, and the account opens no second checkout. */
  lemma ActiveEventGrants(books: Books, prices: seq<Price>, steps: seq<Step>, e: Event, at: Time, a: Account, i: nat, now: Time)
    requires Sound(books) && e.body.SubscriptionChanged? && e.status == Some(Active) && Lists(prices, e.product, i)
    requires var held := Run(books, prices, steps);
             New(held, e, at) && HeldBy(held, e.sub, a) && Delivered(held, prices, e, at).1 == Applied
    ensures var after := Run(books, prices, steps + [Step(Deliver(e), at)]);
            && Has(after, a, prices[i].plan, now)
            && forall r: Request :: r.account == a && OnSale(prices, r.plan, r.period) ==>
                 AfterRequest(after, prices, r, now) == (after, AlreadySubscribed)
  {
    var held, after := Run(books, prices, steps), Run(books, prices, steps + [Step(Deliver(e), at)]);
    RunKeeps(books, prices, steps);
    RunThenOne(books, prices, steps, Step(Deliver(e), at));
    SubscriptionExact(held, prices, e, at, a);
    forall r: Request | r.account == a && OnSale(prices, r.plan, r.period)
      ensures AfterRequest(after, prices, r, now) == (after, AlreadySubscribed)
    {
      assert Has(after, a, prices[i].plan, now);
      CheckoutAnswerExact(after, prices, r, now);
    }
  }
}
